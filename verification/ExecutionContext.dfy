/**
 The worktree path of an execution context, resolved at submit, against the containment gate at claim.

 The control branch maps a control-plane path onto the host workspace, the sibling branch takes a host path under an
 allowlisted root, and without a path the workspace itself is used.
 */
module ExecutionContext {
  import opened Text
  import opened Paths
  import opened WorktreeRoots

  datatype ContextError = Blank | NotHostPath | TraversalPath | OutsideControl | Invalid(error: RootError)

  // ---------------------------------------------------------------- resolution

  predicate IsAbs(path: string) {
    || "/" <= path
    || (|path| >= 3 && IsAlpha(path[0]) && path[1] == ':' && path[2] in {'\\', '/'})
    || "\\\\" <= path
  }

  predicate HasBreak(path: string) {
    '\0' in path || '\n' in path || '\r' in path
  }

  /** `_validate_path`. */
  function ValidatePath(path: string): Option<ContextError> {
    if path == "" then Some(Blank)
    else if HasBreak(path) || !IsAbs(path) then Some(NotHostPath)
    else if HasTraversal(path) then Some(TraversalPath)
    else None
  }

  function LStrip(s: string, c: char): (r: string)
    ensures r == "" || r[0] != c
    ensures |r| <= |s| && r == s[|s| - |r|..]
  {
    if s != "" && s[0] == c then LStrip(s[1..], c) else s
  }

  function ControlRoot(control: string): string {
    RStrip(Slashes(control), '/')
  }

  /** `classify_worktree_raw_path`. */
  predicate UnderControl(control: string, raw: string) {
    Slashes(raw) == ControlRoot(control) || ControlRoot(control) + "/" <= Slashes(raw)
  }

  function HostSeparator(host: string): char {
    if '\\' in host || LooksLikeDrive(host) then '\\' else '/'
  }

  function WithSeparator(path: string, sep: char): string {
    seq(|path|, i requires 0 <= i < |path| => if path[i] in {'/', '\\'} then sep else path[i])
  }

  predicate Traverses(rel: string, sep: char) {
    if sep == '/' then exists i :: 0 <= i < |Split(rel)| && Split(rel)[i] in {".", ".."} else HasTraversal(rel)
  }

  /** A relative path with the host's separators, and none at its ends. */
  function Inner(rel: string, sep: char): string {
    RStrip(LStrip(WithSeparator(rel, sep), sep), sep)
  }

  /** `_join_host_path`. */
  function JoinHost(host: string, rel: string): Result<string, ContextError> {
    if rel == "" then Ok(host) else
      var sep := HostSeparator(host);
      var inner := Inner(rel, sep);
      if Traverses(inner, sep) then Err(TraversalPath) else Ok(RStrip(host, sep) + [sep] + inner)
  }

  /** `_map_foreign_path`. */
  function MapForeign(control: string, host: string, raw: string): Result<string, ContextError> {
    if raw == "" then Ok("")
    else if HasBreak(raw) || !IsAbs(raw) then Err(NotHostPath)
    else if HasTraversal(raw) then Err(TraversalPath)
    else if Slashes(raw) == ControlRoot(control) then Ok(host)
    else if ControlRoot(control) + "/" <= Slashes(raw) then JoinHost(host, Slashes(raw)[|ControlRoot(control)| + 1..])
    else Err(OutsideControl)
  }

  function BranchPath(control: string, host: string, roots: seq<string>, raw: Option<string>)
    : Result<string, ContextError>
  {
    if raw.None? then Ok(host)
    else if UnderControl(control, raw.value) then MapForeign(control, host, raw.value)
    else
      match ResolveAllowlisted(raw.value, roots)
      case Err(e) => Err(Invalid(e))
      case Ok(path) => Ok(path)
  }

  /** The worktree path of `resolve_execution_context_v1`. */
  function ResolveWorktree(control: string, host: string, roots: seq<string>, raw: Option<string>)
    : Result<string, ContextError>
  {
    if Strip(host) == "" then Err(Blank)
    else if ValidatePath(host).Some? then Err(ValidatePath(host).value)
    else
      match BranchPath(control, host, roots, raw)
      case Err(e) => Err(e)
      case Ok(found) =>
        var path := if found == "" then host else found;
        if ValidatePath(path).Some? then Err(ValidatePath(path).value)
        else
          match Normalize(path)
          case Err(e) => Err(Invalid(Bad(e)))
          case Ok(n) => Ok(n)
  }

  predicate Passes(path: string, host: string, roots: seq<string>) {
    CheckContainment(path, host, roots).Ok?
  }

  /** The roots are the validated forms of some entries, for this workspace. */
  predicate ValidatedRoots(roots: seq<string>, raws: seq<string>, host: string) {
    |raws| == |roots| && forall i | 0 <= i < |roots| :: ValidateRoot(raws[i], host) == Ok(roots[i])
  }

  // ---------------------------------------------------------------- what a prefix of the workspace cannot pass

  /** Settling only takes text away from the end. */
  lemma SettleIsPrefix(segs: seq<string>)
    requires ArePlain(segs)
    ensures Render(Settle(segs)) <= Render(segs)
  {
    if segs != [] {
      var init, last := segs[..|segs| - 1], segs[|segs| - 1];
      assert segs == init + [last];
      RenderLast(init, last);
      RenderLast(init, StripRight(last));
      JoinGrows(init, segs);
      PrefixUnderStem("/", Join(init), Join(segs));
      PrefixUnderStem(Stem(init), StripRight(last), last);
      if init != [] {
        JoinGrows(init[..|init| - 1], segs);
        PrefixUnderStem("/", Join(init[..|init| - 1]), Join(segs));
      }
    }
  }

  /** A proper beginning of the workspace's text is under no validated root, and not in the workspace. */
  lemma AboveIsOutside(n: string, host: string, roots: seq<string>, raws: seq<string>)
    requires ValidatedRoots(roots, raws, host) && Normalize(host).Ok?
    requires n <= Normalize(host).value && n != Normalize(host).value
    ensures n != Normalize(host).value && !Under(n, roots)
    ensures !LooksLikeDrive(Normalize(host).value) || EndsInSpace(Normalize(host).value) ==>
              !IsStrictDescendant(n, Normalize(host).value)
  {
    var w := Normalize(host).value;
    forall i | 0 <= i < |roots| ensures !IsStrictDescendant(n, roots[i]) {
      ValidatedRoot(raws[i], host);
      if IsStrictDescendant(n, roots[i]) {
        DescendantsOfPrefix(n, w, roots[i]);
      }
    }
    NormalizeKeepsLocation(host);
    if !LooksLikeDrive(w) {
      DescendantAsText(n, w);
    }
  }

  // ---------------------------------------------------------------- the workspace itself

  /** The workspace's own normal form passes the gate exactly if it does not end in whitespace. */
  lemma HostAgrees(host: string, roots: seq<string>, raws: seq<string>)
    requires ValidatedRoots(roots, raws, host) && Normalize(host).Ok?
    ensures Passes(Normalize(host).value, host, roots) <==> !EndsInSpace(Normalize(host).value)
  {
    hide Normalize, IsStrictDescendant;
    var n := Normalize(host).value;
    NormalizeKeepsLocation(host);
    NormalizeIsIdempotent(host);
    NormalizeAgain(n);
    if EndsInSpace(n) {
      SettleIsPrefix(Location(n));
      AboveIsOutside(Normalize(n).value, host, roots, raws);
    }
  }

  /**
   Without a worktree path the context passes the gate exactly if the workspace's normal form does not end in
   whitespace.
   */
  lemma DefaultAgrees(control: string, host: string, roots: seq<string>, raws: seq<string>)
    requires ValidatedRoots(roots, raws, host) && ResolveWorktree(control, host, roots, None).Ok?
    ensures var n := ResolveWorktree(control, host, roots, None).value;
            n == Normalize(host).value && (Passes(n, host, roots) <==> !EndsInSpace(n))
  {
    hide ValidatePath, Normalize, IsStrictDescendant, Strip, Passes;
    HostAgrees(host, roots, raws);
  }

  // ---------------------------------------------------------------- the gate, by segments

  /** Contained, by segments: the workspace itself, or beneath it or beneath a root. */
  predicate Contained(segs: seq<string>, host: string, roots: seq<string>)
    requires Normalize(host).Ok?
  {
    var w := Location(Normalize(host).value);
    segs == w || Beneath(w, segs) || exists i :: 0 <= i < |roots| && Beneath(Location(roots[i]), segs)
  }

  /** The claim gate, by segments: it looks where the stored path settles. */
  lemma GateIsSegments(n: string, host: string, roots: seq<string>, raws: seq<string>)
    requires IsNormal(n) && Normalize(host).Ok? && ValidatedRoots(roots, raws, host)
    ensures Passes(n, host, roots) <==> Contained(Settle(Location(n)), host, roots)
  {
    hide Normalize, ValidateRoot, Beneath, IsStrictDescendant;
    var w, settled := Normalize(host).value, Settle(Location(n));
    NormalizeAgain(n);
    SettledIsNormal(n);
    NormalizeKeepsLocation(host);
    var m := Render(settled);
    DescendantIsBeneath(m, w);
    assert m == w <==> settled == Location(w);
    forall i | 0 <= i < |roots| ensures IsStrictDescendant(m, roots[i]) <==> Beneath(Location(roots[i]), settled) {
      ValidatedRoot(raws[i], host);
      DescendantIsBeneath(m, roots[i]);
    }
  }

  lemma SettledIsNormal(path: string)
    requires IsNormal(path)
    ensures IsNormal(Render(Settle(Location(path))))
    ensures Location(Render(Settle(Location(path)))) == Settle(Location(path))
  {
    SettleIsPlain(Location(path));
    LocationOfRender(Settle(Location(path)));
    SettleIsPrefix(Location(path));
  }

  // ---------------------------------------------------------------- the sibling branch

  /**
   A sibling context passes the gate exactly if its path, normalized twice more, is still contained by segments; in
   particular whenever the path it was resolved from has a normal form that does not end in whitespace.
   */
  lemma SiblingAgrees(control: string, host: string, roots: seq<string>, raws: seq<string>, raw: string)
    requires !UnderControl(control, raw) && ResolveWorktree(control, host, roots, Some(raw)).Ok? && Normalize(host).Ok?
    requires ValidatedRoots(roots, raws, host)
    ensures var n := ResolveWorktree(control, host, roots, Some(raw)).value;
            && Normalize(raw).Ok?
            && (Passes(n, host, roots) <==> Contained(Settle(Settle(Location(Normalize(raw).value))), host, roots))
            && (!EndsInSpace(Normalize(raw).value) ==> n == Normalize(raw).value && Passes(n, host, roots))
  {
    hide ValidatePath, HasTraversal, Strip, NoControl, ValidateRoot, IsStrictDescendant, Contained;
    var found := Normalize(raw).value;
    NormalizeKeepsLocation(raw);
    NormalizeAgain(found);
    var n := ResolveWorktree(control, host, roots, Some(raw)).value;
    SettledIsNormal(found);
    GateIsSegments(n, host, roots, raws);
    SettleStays(Location(found));
    EndOfRender(Location(found));
  }

  // ---------------------------------------------------------------- text under a base path

  lemma {:induction false} SplitConcat(a: string, b: string)
    ensures Split(a + "/" + b) == Split(a) + Split(b)
  {
    if a == "" {
      assert ("" + "/" + b)[1..] == b;
    } else {
      assert (a + "/" + b)[1..] == a[1..] + "/" + b;
      SplitConcat(a[1..], b);
    }
  }

  lemma LocationUnder(base: string, q: string)
    ensures Location(base + "/" + q) == Walk(Location(base), Split(q))
  {
    SplitConcat(base, q);
    WalkOn([], Split(base), Split(q));
  }

  /** Trailing separators change neither the location nor the segments before them. */
  lemma {:induction false} WithoutTrailing(path: string)
    ensures Location(RStrip(path, '/')) == Location(path) && Split(RStrip(path, '/')) <= Split(path)
  {
    if path != "" && path[|path| - 1] == '/' {
      var t := path[..|path| - 1];
      assert path == t + "/" + "";
      WithoutTrailing(t);
      LocationUnder(t, "");
      SplitConcat(t, "");
      WalkOne(Location(t), "");
    }
  }

  lemma {:induction false} RStripEnd(s: string, c: char)
    ensures RStrip(s, c) != "" ==> RStrip(s, c)[|RStrip(s, c)| - 1] != c
  {
    if s != "" && s[|s| - 1] == c {
      RStripEnd(s[..|s| - 1], c);
    }
  }

  lemma {:induction false} SplitEnd(s: string)
    requires s != "" && s[|s| - 1] != '/'
    ensures var segs := Split(s); var last := segs[|segs| - 1]; last != "" && last[|last| - 1] == s[|s| - 1]
  {
    var rest := Split(s[1..]);
    if |s| == 1 {
      assert rest == [""];
    } else {
      SplitEnd(s[1..]);
      assert s[1..][|s[1..]| - 1] == s[|s| - 1];
      assert |rest| > 1 ==> Split(s)[|Split(s)| - 1] == rest[|rest| - 1];
    }
  }

  lemma RStripKeeps(host: string)
    requires host != "" && host[0] == '/'
    ensures RStrip(host, '\\') != "" && RStrip(host, '\\')[0] == '/'
  {
    RStripOf("/", host[1..], '\\');
    assert "/" + host[1..] == host;
  }

  lemma StripKeepsStart(s: string)
    requires s != "" && !IsSpace(s[0])
    ensures Strip(s) == StripRight(s) && StripRight(s) != "" && StripRight(s)[0] == s[0]
    ensures |s| >= 2 && !IsSpace(s[1]) ==> |StripRight(s)| >= 2 && StripRight(s)[..2] == s[..2]
  {
    assert StripLeft(s) == s;
  }

  /** A workspace path that normalizes as a POSIX path starts with a slash. */
  lemma PosixStart(host: string)
    requires ValidatePath(host).None? && Normalize(host).Ok?
    ensures host != "" && host[0] == '/' && Strip(host) == StripRight(host)
  {
    hide HasTraversal, HasBreak, NormPath, NoControl, Strip, StripRight, StripLeft;
    assert IsAbs(host);
    StripKeepsStart(host);
  }

  /** Stripping a path trims what stands after its last separator. */
  lemma StripMapped(base: string, sep: char, tail: string)
    requires sep in {'/', '\\'} && if base == "" then sep == '/' else base[0] == '/'
    ensures Strip(base + [sep] + tail) == base + [sep] + StripRight(tail)
  {
    var path := base + [sep] + tail;
    assert StripLeft(path) == path;
    StripRightOf(base + [sep], tail);
  }

  // ---------------------------------------------------------------- the control branch

  /** The segments that name something. */
  function Names(segs: seq<string>): seq<string> {
    if segs == [] then [] else Names(segs[..|segs| - 1]) + if segs[|segs| - 1] == "" then [] else [segs[|segs| - 1]]
  }

  /** What a control path says below the control root, before and after the host's separators are put in. */
  function ControlRel(control: string, raw: string): string {
    var text, root := Slashes(raw), ControlRoot(control);
    if raw == "" || text == root || !(root + "/" <= text) then "" else text[|root| + 1..]
  }

  function ControlTail(control: string, host: string, raw: string): string {
    Inner(ControlRel(control, raw), HostSeparator(host))
  }

  /** The names before the last segment of a tail, and its last segment as the strip leaves it. */
  function TailNames(tail: string): seq<string> {
    Names(Split(tail)[..|Split(tail)| - 1])
  }

  function TailEnd(tail: string): string {
    StripRight(Split(tail)[|Split(tail)| - 1])
  }

  /** Where the text before the last separator leads, and the text after it. */
  function Directory(base: string): seq<string> {
    Walk([], Split(base)[..|Split(base)| - 1])
  }

  function LastName(base: string): string {
    Split(base)[|Split(base)| - 1]
  }

  /**
   Where a control path stands on a host.  The control root is the workspace itself, stripped.  Joined by slashes, a
   path leads from the workspace's text, unstripped, through the names of its tail.  Joined by backslashes, it is one
   long name in the workspace's parent directory.
   */
  function ControlPlace(control: string, host: string, raw: string): seq<string> {
    var tail := ControlTail(control, host, raw);
    if ControlRel(control, raw) == "" then Location(Strip(host))
    else if HostSeparator(host) == '/' then Step(Location(RStrip(host, '/')) + TailNames(tail), TailEnd(tail))
    else var base := RStrip(host, '\\'); Directory(base) + [LastName(base) + "\\" + StripRight(tail)]
  }

  predicate NoDots(segs: seq<string>) {
    forall i | 0 <= i < |segs| :: segs[i] != "." && segs[i] != ".."
  }

  lemma {:induction false} WalkNames(at: seq<string>, segs: seq<string>)
    requires NoDots(segs)
    ensures Walk(at, segs) == at + Names(segs)
  {
    if segs == [] {
      assert at + [] == at;
    } else {
      WalkNames(at, segs[..|segs| - 1]);
    }
  }

  lemma {:induction false} JoinSplit(s: string)
    ensures Join(Split(s)) == s
  {
    if s != "" {
      JoinSplit(s[1..]);
      var rest := Split(s[1..]);
      assert s == [s[0]] + s[1..];
      if s[0] != '/' {
        assert ([[s[0]] + rest[0]] + rest[1..])[1..] == rest[1..];
      } else {
        assert ([""] + rest)[1..] == rest;
      }
    }
  }

  lemma SplitOfOne(seg: string)
    requires '/' !in seg
    ensures Split(seg) == [seg]
  {
    SplitOfSegment(seg, "");
  }

  lemma StripJoined(init: seq<string>, last: string)
    requires init != []
    ensures StripRight(Join(init + [last])) == Join(init + [StripRight(last)])
  {
    hide StripRight;
    JoinLast(init, last);
    JoinLast(init, StripRight(last));
    StripRightOf(Join(init) + "/", last);
  }

  /** Stripping a text trims its last segment. */
  lemma SplitOfStripped(s: string)
    ensures Split(StripRight(s)) == Split(s)[..|Split(s)| - 1] + [TailEnd(s)]
  {
    hide StripRight, Split;
    var segs := Split(s);
    var init, last := segs[..|segs| - 1], segs[|segs| - 1];
    assert segs == init + [last];
    JoinSplit(s);
    StripRightIsClean(last);
    if init == [] {
      assert segs == [last];
      SplitOfOne(StripRight(last));
    } else {
      StripJoined(init, last);
      hide Join;
      SplitJoin(init + [StripRight(last)]);
    }
  }

  /** A slash, then a tail: from the base through the names of the tail. */
  lemma SlashLocation(base: string, tail: string)
    requires (base == "" || base[0] == '/') && NoDots(Split(tail)) && Normalize(base + "/" + tail).Ok?
    ensures Location(Normalize(base + "/" + tail).value) == Step(Location(base) + TailNames(tail), TailEnd(tail))
  {
    hide Normalize, IsNormal, Location, Split, StripRight, Walk, Step, Names;
    NormalizeKeepsLocation(base + "/" + tail);
    assert base + ['/'] + tail == base + "/" + tail && base + ['/'] + StripRight(tail) == base + "/" + StripRight(tail);
    StripMapped(base, '/', tail);
    LocationUnder(base, StripRight(tail));
    SplitOfStripped(tail);
    var init, c := Split(tail)[..|Split(tail)| - 1], Location(base);
    WalkOn(c, init, [TailEnd(tail)]);
    WalkNames(c, init);
    WalkOne(c + Names(init), TailEnd(tail));
  }

  /** Text without a separator makes the last segment longer. */
  lemma SplitExtended(base: string, more: string)
    requires '/' !in more
    ensures Split(base + more) == Split(base)[..|Split(base)| - 1] + [LastName(base) + more]
  {
    hide Split, Join;
    var init, last := Split(base)[..|Split(base)| - 1], LastName(base);
    assert Split(base) == init + [last];
    JoinSplit(base);
    if init == [] {
      assert Split(base) == [last];
      SplitOfOne(last + more);
      assert base == last by { SplitOfOne(last); JoinOne(last); }
    } else {
      JoinLast(init, last);
      JoinLast(init, last + more);
      assert Join(init) + "/" + last + more == Join(init) + "/" + (last + more);
      SplitJoin(init + [last + more]);
    }
  }

  lemma JoinOne(seg: string)
    ensures Join([seg]) == seg
  {
  }

  /** A backslash, then a tail without slashes: one long name. */
  lemma BackslashLocation(base: string, tail: string)
    requires base != "" && base[0] == '/' && '/' !in tail && Normalize(base + "\\" + tail).Ok?
    ensures Location(Normalize(base + "\\" + tail).value) ==
              Directory(base) + [LastName(base) + "\\" + StripRight(tail)]
  {
    hide Normalize, StripRight, Split, Walk;
    NormalizeKeepsLocation(base + "\\" + tail);
    StripMapped(base, '\\', tail);
    var more := "\\" + StripRight(tail);
    StripRightIsClean(tail);
    assert base + "\\" + StripRight(tail) == base + more;
    SplitExtended(base, more);
    var init, name := Split(base)[..|Split(base)| - 1], LastName(base) + more;
    WalkOn([], init, [name]);
    WalkOne(Directory(base), name);
    assert name == LastName(base) + "\\" + StripRight(tail);
    assert name[|LastName(base)|] == '\\';
  }

  lemma InnerHasNoSlash(rel: string)
    ensures '/' !in Inner(rel, '\\')
  {
    var text := WithSeparator(rel, '\\');
    assert '/' !in text;
    assert forall c | c in LStrip(text, '\\') :: c in text;
    assert forall c | c in Inner(rel, '\\') :: c in LStrip(text, '\\');
  }

  /**
   What mapping a control path gives: the workspace, or its text without trailing separators with the tail appended.
   */
  lemma MappedPath(control: string, host: string, raw: string)
    requires UnderControl(control, raw) && MapForeign(control, host, raw).Ok?
    ensures var path, tail, sep := MapForeign(control, host, raw).value, ControlTail(control, host, raw),
              HostSeparator(host);
            if ControlRel(control, raw) == "" then path in {"", host}
            else path == RStrip(host, sep) + [sep] + tail && !Traverses(tail, sep)
  {
    hide HasTraversal, HasBreak, IsAbs, HostSeparator, Slashes, Inner, Traverses;
  }

  /** The path a control context normalizes. */
  lemma ControlPath(control: string, host: string, roots: seq<string>, raw: string)
    requires UnderControl(control, raw) && ResolveWorktree(control, host, roots, Some(raw)).Ok?
    ensures var tail, n, sep := ControlTail(control, host, raw), ResolveWorktree(control, host, roots, Some(raw)),
              HostSeparator(host);
            && ValidatePath(host).None?
            && if ControlRel(control, raw) == "" then Normalize(host) == Ok(n.value)
               else !Traverses(tail, sep) && Normalize(RStrip(host, sep) + [sep] + tail) == Ok(n.value)
  {
    hide Normalize, HasTraversal, HasBreak, IsAbs, MapForeign, UnderControl, Strip, ControlRel, ControlTail, Traverses;
    hide HostSeparator;
    assert MapForeign(control, host, raw).Ok?;
    MappedPath(control, host, raw);
    var sep := HostSeparator(host);
    assert RStrip(host, sep) + [sep] + ControlTail(control, host, raw) != "";
  }

  /** Where a control context's path stands, whatever the workspace is called. */
  lemma ControlLocation(control: string, host: string, roots: seq<string>, raw: string)
    requires UnderControl(control, raw) && ResolveWorktree(control, host, roots, Some(raw)).Ok? && Normalize(host).Ok?
    ensures var n := ResolveWorktree(control, host, roots, Some(raw)).value;
            IsNormal(n) && Location(n) == ControlPlace(control, host, raw)
  {
    hide Normalize, UnderControl, ResolveWorktree, ValidatePath, ControlRel, Inner, Step, Location, Split, IsNormal;
    hide RStrip, Traverses;
    hide TailNames, TailEnd, StripRight, Walk, HostSeparator, Directory, LastName;
    var tail, sep := ControlTail(control, host, raw), HostSeparator(host);
    ControlPath(control, host, roots, raw);
    PosixStart(host);
    IsSeparator(host);
    if ControlRel(control, raw) == "" {
      NormalizeKeepsLocation(host);
    } else {
      NormalizeKeepsLocation(RStrip(host, sep) + [sep] + tail);
      if sep == '/' {
        SlashTail(tail);
        SlashLocation(RStrip(host, '/'), tail);
      } else {
        RStripKeeps(host);
        InnerHasNoSlash(ControlRel(control, raw));
        BackslashLocation(RStrip(host, '\\'), tail);
      }
    }
  }

  lemma IsSeparator(host: string)
    ensures HostSeparator(host) in {'/', '\\'}
  {
  }

  lemma SlashTail(tail: string)
    requires !Traverses(tail, '/')
    ensures NoDots(Split(tail))
  {
  }

  /**
   A control context of any POSIX workspace is stored where `ControlPlace` says, and passes the gate exactly if that
   place, settled, is contained.
   */
  lemma ControlAgrees(control: string, host: string, roots: seq<string>, raws: seq<string>, raw: string)
    requires UnderControl(control, raw) && ResolveWorktree(control, host, roots, Some(raw)).Ok? && Normalize(host).Ok?
    requires ValidatedRoots(roots, raws, host)
    ensures var n, place := ResolveWorktree(control, host, roots, Some(raw)).value, ControlPlace(control, host, raw);
            Location(n) == place && (Passes(n, host, roots) <==> Contained(Settle(place), host, roots))
  {
    hide *;
    ControlLocation(control, host, roots, raw);
    GateIsSegments(ResolveWorktree(control, host, roots, Some(raw)).value, host, roots, raws);
  }

  /** The control root itself maps to the workspace, with the condition of the default branch. */
  lemma ControlRootAgrees(control: string, host: string, roots: seq<string>, raws: seq<string>, raw: string)
    requires UnderControl(control, raw) && ResolveWorktree(control, host, roots, Some(raw)).Ok?
    requires ValidatedRoots(roots, raws, host) && ControlRel(control, raw) == ""
    ensures var n := ResolveWorktree(control, host, roots, Some(raw)).value;
            Normalize(host) == Ok(n) && (Passes(n, host, roots) <==> !EndsInSpace(n))
  {
    hide *;
    ControlPath(control, host, roots, raw);
    HostAgrees(host, roots, raws);
  }


  // ---------------------------------------------------------------- what a POSIX workspace contains

  /**
   The validated roots of a workspace that is not taken for a drive: none is, and none is at or above the workspace.
   */
  lemma RootsOfPosix(host: string, roots: seq<string>, raws: seq<string>, i: nat)
    requires ValidatedRoots(roots, raws, host) && Normalize(host).Ok? && !LooksLikeDrive(Normalize(host).value)
    requires i < |roots|
    ensures !StartsWithColon(Location(roots[i])) && !(Location(roots[i]) <= Location(Normalize(host).value))
  {
    hide Normalize, NormalizeHostNative, IsFilesystemRoot, IsStrictDescendant, Location, IsNormal;
    var w, r := Normalize(host).value, roots[i];
    ValidatedRoot(raws[i], host);
    PosixFlavour(w);
    PosixFlavour(r);
    ContainmentIsSegments(w, r);
    ColonOfNormal(r);
    SameLocation(w, r);
  }

  lemma SameLocation(a: string, b: string)
    requires IsNormal(a) && IsNormal(b)
    ensures a == b <==> Location(a) == Location(b)
  {
  }

  lemma PosixFlavour(n: string)
    requires IsNormal(n)
    ensures FlavourOf(n) == Posix <==> !LooksLikeDrive(n)
  {
    assert |n| >= 2 ==> n[..2][0] == '/';
  }

  lemma ColonOfNormal(n: string)
    requires IsNormal(n)
    ensures LooksLikeDrive(n) <==> StartsWithColon(Location(n))
  {
    ColonIsDrive(Location(n));
  }

  predicate UnderRoot(segs: seq<string>, roots: seq<string>) {
    exists i :: 0 <= i < |roots| && Location(roots[i]) < segs
  }

  /**
   For a workspace not taken for a drive, containment is a matter of prefixes; what stands next to the workspace's path
   is under no root.
   */
  lemma PosixContained(segs: seq<string>, host: string, roots: seq<string>, raws: seq<string>)
    requires ValidatedRoots(roots, raws, host) && Normalize(host).Ok? && !LooksLikeDrive(Normalize(host).value)
    ensures Contained(segs, host, roots) <==> Location(Normalize(host).value) <= segs || UnderRoot(segs, roots)
    ensures segs == [] || segs[..|segs| - 1] <= Location(Normalize(host).value) ==> !UnderRoot(segs, roots)
  {
    hide Normalize, Location, ValidateRoot;
    var w := Normalize(host).value;
    NormalizeKeepsLocation(host);
    ColonOfNormal(w);
    forall i | 0 <= i < |roots|
      ensures Beneath(Location(roots[i]), segs) <==> Location(roots[i]) < segs
      ensures segs == [] || segs[..|segs| - 1] <= Location(w) ==> !(Location(roots[i]) < segs)
    {
      RootsOfPosix(host, roots, raws, i);
      var r := Location(roots[i]);
      assert segs != [] && r < segs ==> r <= segs[..|segs| - 1];
    }
  }

  // ---------------------------------------------------------------- siblings, by their last name

  lemma SiblingUnderRoot(control: string, host: string, roots: seq<string>, raws: seq<string>, raw: string)
    requires !UnderControl(control, raw) && ResolveWorktree(control, host, roots, Some(raw)).Ok? && Normalize(host).Ok?
    requires ValidatedRoots(roots, raws, host) && !LooksLikeDrive(Normalize(host).value)
    ensures Normalize(raw).Ok? && UnderRoot(Location(Normalize(raw).value), roots)
  {
    hide ValidatePath, HasTraversal, Strip, NoControl, ValidateRoot, IsStrictDescendant, Location;
    var found := Normalize(raw).value;
    NormalizeKeepsLocation(raw);
    var i :| 0 <= i < |roots| && IsStrictDescendant(found, roots[i]);
    ValidatedRoot(raws[i], host);
    RootsOfPosix(host, roots, raws, i);
    DescendantIsBeneath(found, roots[i]);
  }

  lemma NamedStaysUnder(segs: seq<string>, name: string, roots: seq<string>)
    requires segs != [] && UnderRoot(segs, roots) && name == StripRight(segs[|segs| - 1]) && name !in {"", ".", ".."}
    ensures var place := segs[..|segs| - 1] + [name];
              Settle(segs) == place && Settle(place) == place && UnderRoot(place, roots)
  {
    hide Location;
    var init := segs[..|segs| - 1];
    var place := init + [name];
    assert place[..|place| - 1] == init;
    StrippedOnce(segs[|segs| - 1]);
    var i :| 0 <= i < |roots| && Location(roots[i]) < segs;
    assert Location(roots[i]) <= init;
    assert Location(roots[i]) < place;
  }

  lemma SettleOfPlace(segs: seq<string>)
    requires ArePlain(segs) && segs != []
    ensures var place := Step(segs[..|segs| - 1], StripRight(segs[|segs| - 1]));
            && Settle(segs) == place && (place == [] || !EndsInSpace(place[|place| - 1]) ==> Settle(place) == place)
  {
    SettleIsPlain(segs);
    SettleStays(Settle(segs));
  }

  /**
   For a workspace not taken for a drive, a sibling passes exactly if its last name still names something once it is
   stripped, or if the place that is left without it, settled where it ends in whitespace, is in the workspace or
   strictly under a root.
   */
  lemma SiblingExactly(control: string, host: string, roots: seq<string>, raws: seq<string>, raw: string)
    requires !UnderControl(control, raw) && ResolveWorktree(control, host, roots, Some(raw)).Ok? && Normalize(host).Ok?
    requires ValidatedRoots(roots, raws, host) && !LooksLikeDrive(Normalize(host).value)
    ensures Normalize(raw).Ok? && Location(Normalize(raw).value) != []
    ensures var n, segs := ResolveWorktree(control, host, roots, Some(raw)).value, Location(Normalize(raw).value);
            var name := StripRight(segs[|segs| - 1]);
            var place := Step(segs[..|segs| - 1], name);
            && (Passes(n, host, roots) <==>
                  || name !in {"", ".", ".."}
                  || Location(Normalize(host).value) <= Settle(place) || UnderRoot(Settle(place), roots))
            && (place == [] || !EndsInSpace(place[|place| - 1]) ==> Settle(place) == place)
  {
    hide *;
    SiblingAgrees(control, host, roots, raws, raw);
    SiblingUnderRoot(control, host, roots, raws, raw);
    NormalizeKeepsLocation(raw);
    var segs := Location(Normalize(raw).value);
    UnderIsSome(segs, roots);
    PlainOfNormal(Normalize(raw).value);
    SettleOfPlace(segs);
    var name := StripRight(segs[|segs| - 1]);
    PosixContained(Settle(Settle(segs)), host, roots, raws);
    if name !in {"", ".", ".."} {
      NamedStaysUnder(segs, name, roots);
    }
  }

  lemma UnderIsSome(segs: seq<string>, roots: seq<string>)
    requires UnderRoot(segs, roots)
    ensures segs != []
  {
  }

  lemma PlainOfNormal(n: string)
    requires IsNormal(n)
    ensures ArePlain(Location(n))
  {
  }

  // ---------------------------------------------------------------- workspaces joined by slashes

  predicate ReadsUp(seg: string) {
    StripRight(seg) == ".."
  }

  /**
   Does a tail climb out of the workspace?  Whitespace hides a parent segment from the traversal check, and each of the
   two normalizations still to come strips the last segment once: a leading parent segment is reached as the last one,
   or after a blank or `.` last one, or after a name that a parent segment behind it took away.
   */
  predicate Climbs(names: seq<string>, end: string) {
    || (|names| == 0 && end == "..")
    || (|names| == 1 && ReadsUp(names[0]) && end in {"", "."})
    || (|names| == 2 && ReadsUp(names[0]) && end == "..")
  }

  /** Is the place a tail leads to the workspace's own? */
  predicate Lands(names: seq<string>, end: string) {
    (|names| == 0 && end in {"", "."}) || (|names| == 1 && end == "..")
  }

  /** Settling two segments further down. */
  lemma SettlesUnder(c: seq<string>, names: seq<string>)
    requires names != []
    ensures Settle(c + names) == Step(c + names[..|names| - 1], StripRight(names[|names| - 1]))
    ensures |names| >= 2 || !ReadsUp(names[0]) ==> c <= Settle(c + names)
    ensures |names| == 1 && ReadsUp(names[0]) && c != [] ==> Settle(c + names) == c[..|c| - 1]
  {
    var fewer, last := names[..|names| - 1], names[|names| - 1];
    assert (c + names)[..|c + names| - 1] == c + fewer;
    if fewer == [] {
      assert c + fewer == c;
    } else {
      assert (c + fewer)[..|c + fewer| - 1] == c + fewer[..|fewer| - 1];
    }
  }

  lemma SettlesAfterName(c: seq<string>, names: seq<string>, end: string)
    requires end != "" && end != "." && end != ".." && StripRight(end) == end
    ensures Settle(Step(c + names, end)) == c + names + [end]
  {
    var d := c + names + [end];
    assert d[..|d| - 1] == c + names;
  }

  lemma SettlesAfterUp(c: seq<string>, names: seq<string>)
    requires c != []
    ensures |names| == 0 ==> Settle(Step(c + names, "..")) == Settle(c[..|c| - 1])
    ensures |names| == 1 ==> Settle(Step(c + names, "..")) == Settle(c)
    ensures |names| == 2 && ReadsUp(names[0]) ==> Settle(Step(c + names, "..")) == c[..|c| - 1]
    ensures |names| >= 2 && !(|names| == 2 && ReadsUp(names[0])) ==> c <= Settle(Step(c + names, ".."))
  {
    hide Settle, ReadsUp;
    if names == [] {
      assert c + names == c;
    } else {
      var fewer := names[..|names| - 1];
      assert (c + names)[..|c + names| - 1] == c + fewer;
      if fewer == [] {
        assert c + fewer == c;
      } else {
        SettlesUnder(c, fewer);
      }
    }
  }

  /** Where the gate looks for a tail below `c`: below it, or where `c` itself settles, or above. */
  lemma SettlesBelow(c: seq<string>, names: seq<string>, end: string)
    requires c != [] && StripRight(end) == end
    ensures var place := Settle(Step(c + names, end));
            if Climbs(names, end) then place == if names == [] then Settle(c[..|c| - 1]) else c[..|c| - 1]
            else if Lands(names, end) then place == Settle(c)
            else c <= place
  {
    hide Settle, StripRight, ReadsUp;
    if end == "" || end == "." {
      if names == [] {
        assert c + names == c;
      } else {
        SettlesUnder(c, names);
      }
    } else if end == ".." {
      SettlesAfterUp(c, names);
    } else {
      SettlesAfterName(c, names, end);
    }
  }

  /** What `c` settles to does not reach beyond `c` but for its last segment. */
  lemma SettledInit(c: seq<string>)
    ensures var s := Settle(c); |s| <= |c| && (s == [] || s[..|s| - 1] <= c)
    ensures c != [] ==> var s := Settle(c[..|c| - 1]); |s| < |c| && (s == [] || s[..|s| - 1] <= c)
  {
    hide StripRight;
  }

  lemma StrippedOnce(s: string)
    ensures StripRight(StripRight(s)) == StripRight(s)
  {
  }

  lemma TailOfNone(host: string)
    ensures var tail := Inner("", HostSeparator(host)); TailNames(tail) == [] && TailEnd(tail) == ""
  {
    assert Inner("", HostSeparator(host)) == "";
    assert Split("") == [""] && [""][..0] == [];
  }

  lemma SlashHasNoDots(host: string)
    requires HostSeparator(host) == '/' && ValidatePath(host).None?
    ensures NoDots(Split(host))
  {
    assert Slashes(host) == host;
  }

  lemma SplitHead(s: string)
    ensures (s == "" || s[0] == '/') ==> Split(s)[0] == ""
    ensures s != "" && s[0] != '/' ==> Split(s)[0] != "" && Split(s)[0][0] == s[0]
  {
  }

  lemma {:induction false} NamesFirst(segs: seq<string>)
    requires |segs| >= 2 && segs[0] == "" && segs[1] != ""
    ensures Names(segs) != [] && Names(segs)[0] == segs[1]
  {
    var init := segs[..|segs| - 1];
    if |segs| > 2 {
      NamesFirst(init);
    } else {
      assert init == [""] && init[..0] == [];
      assert Names(init[..0]) == [];
      assert Names(init) == [];
    }
  }

  /** The segments of a text up to its last separator lead to its directory; its last name goes on from there. */
  lemma DirectoryLocation(base: string)
    ensures Location(base) == Step(Directory(base), LastName(base))
    ensures Location(StripRight(base)) == Step(Directory(base), StripRight(LastName(base)))
  {
    hide StripRight, Split;
    SplitOfStripped(base);
    var init := Split(base)[..|Split(base)| - 1];
    var segs := init + [TailEnd(base)];
    assert segs[..|segs| - 1] == init;
  }

  /** A workspace joined by slashes is not taken for a drive. */
  lemma SlashIsPosix(host: string)
    requires HostSeparator(host) == '/' && ValidatePath(host).None? && Normalize(host).Ok?
    ensures !LooksLikeDrive(Normalize(host).value)
  {
    hide HasBreak, HasTraversal, Location, Walk;
    PosixStart(host);
    NormalizeKeepsLocation(host);
    var n, rest := Normalize(host).value, Split(host[1..]);
    assert Split(host) == [""] + rest;
    SplitHead(host[1..]);
    OneSlash(host);
    SlashHasNoDots(host);
    SlashFirst(host);
    ColonOfNormal(n);
  }

  lemma OneSlash(host: string)
    requires host != "" && host[0] == '/' && Normalize(host).Ok?
    ensures |host| >= 2 ==> host[1] != '/'
  {
    hide StripRight, NoControl, NormPath;
    StripKeepsStart(host);
    assert |host| >= 2 ==> host[..2] == [host[0], host[1]];
  }

  lemma SlashFirst(host: string)
    requires |host| >= 1 && host[0] == '/' && (|host| >= 2 ==> host[1] != '/' && host[1] != ':') && NoDots(Split(host))
    ensures !StartsWithColon(Location(StripRight(host)))
  {
    hide Walk;
    var rest := Split(host[1..]);
    assert Split(host) == [""] + rest;
    SplitHead(host[1..]);
    DirectoryLocation(host);
    var init := Split(host)[..|Split(host)| - 1];
    WalkNames([], init);
    assert [] + Names(init) == Names(init);
    if |rest| == 1 {
      assert init == [""] && init[..0] == [];
      assert Names(init[..0]) == [];
      assert Names(init) == [];
    } else {
      SplitOneRest(host[1..]);
      NamesFirst(init);
    }
  }

  lemma SplitOneRest(s: string)
    ensures s == "" ==> |Split(s)| == 1
  {
  }

  /** Where a workspace not ending in whitespace stands, and its control paths from there. */
  lemma SlashPlace(control: string, host: string, raw: string)
    requires HostSeparator(host) == '/' && !EndsInSpace(host) && ValidatePath(host).None? && Normalize(host).Ok?
    ensures var tail := ControlTail(control, host, raw);
            ControlPlace(control, host, raw) == Step(Location(Normalize(host).value) + TailNames(tail), TailEnd(tail))
  {
    hide Normalize, Location, ValidatePath, Inner, TailNames, TailEnd, HostSeparator, StripRight;
    PosixStart(host);
    NormalizeKeepsLocation(host);
    WithoutTrailing(host);
    StrippedHost(host);
    TailOfNone(host);
    var w := Location(Normalize(host).value);
    assert w + [] == w;
  }

  lemma StrippedHost(host: string)
    requires host != "" && !EndsInSpace(host)
    ensures StripRight(host) == host
  {
  }

  /**
   A control context of a workspace that is joined by slashes and whose text does not end in whitespace passes the gate
   unless its tail climbs out of the workspace (at the filesystem root nothing can), or lands on a workspace whose
   normal form ends in whitespace.
   */
  lemma SlashControlAgrees(control: string, host: string, roots: seq<string>, raws: seq<string>, raw: string)
    requires UnderControl(control, raw) && ResolveWorktree(control, host, roots, Some(raw)).Ok? && Normalize(host).Ok?
    requires ValidatedRoots(roots, raws, host) && HostSeparator(host) == '/' && !EndsInSpace(host)
    ensures var n, w := ResolveWorktree(control, host, roots, Some(raw)).value, Normalize(host).value;
            var tail := ControlTail(control, host, raw);
            Passes(n, host, roots) <==>
              || w == "/"
              || !(Climbs(TailNames(tail), TailEnd(tail)) || (EndsInSpace(w) && Lands(TailNames(tail), TailEnd(tail))))
  {
    hide *;
    var n, c, tail := ResolveWorktree(control, host, roots, Some(raw)).value, Location(Normalize(host).value),
      ControlTail(control, host, raw);
    ControlPath(control, host, roots, raw);
    ControlAgrees(control, host, roots, raws, raw);
    SlashPlace(control, host, raw);
    SlashIsPosix(host);
    NormalizeKeepsLocation(host);
    EndIsStripped(tail);
    SettledContained(c, TailNames(tail), TailEnd(tail), host, roots, raws);
  }

  lemma EndIsStripped(tail: string)
    ensures StripRight(TailEnd(tail)) == TailEnd(tail)
  {
    StrippedOnce(LastName(tail));
  }

  lemma SettledContained(c: seq<string>, names: seq<string>, end: string, host: string, roots: seq<string>,
                         raws: seq<string>)
    requires ValidatedRoots(roots, raws, host) && Normalize(host).Ok? && !LooksLikeDrive(Normalize(host).value)
    requires c == Location(Normalize(host).value) && IsNormal(Normalize(host).value) && StripRight(end) == end
    ensures Contained(Settle(Step(c + names, end)), host, roots) <==>
              || Normalize(host).value == "/"
              || !(Climbs(names, end) || (EndsInSpace(Normalize(host).value) && Lands(names, end)))
  {
    hide Normalize, Location, ValidatedRoots, Climbs, Lands, Settle, Step, StripRight, Contained, UnderRoot, IsPlain;
    hide LooksLikeDrive, EndsInSpace;
    var place := Settle(Step(c + names, end));
    PosixContained(place, host, roots, raws);
    assert c == [] <==> Normalize(host).value == "/" by { RootIsEmpty(Normalize(host).value); }
    if c != [] {
      SettlesBelow(c, names, end);
      SettledInit(c);
      SettleStays(c);
      EndOfRender(c);
      assert c[..|c| - 1] == [] || c[..|c| - 1][..|c| - 2] <= c;
      if c <= Settle(c) {
        assert c == Settle(c);
      }
    }
  }

  lemma RootIsEmpty(n: string)
    requires IsNormal(n)
    ensures Location(n) == [] <==> n == "/"
  {
    LocationOfRender([]);
  }

  lemma BlankLocation(host: string)
    requires host != "" && EndsInSpace(host)
    ensures RStrip(host, '/') == host && Location(host) == Directory(host) + [LastName(host)]
    ensures EndsInSpace(LastName(host))
  {
    SplitEnd(host);
    DirectoryLocation(host);
  }

  /**
   A workspace joined by slashes whose text ends in whitespace, with a name left when it is stripped: the gate looks
   beside the workspace for every control path but those that land on it, and lets only the roots pass those.
   */
  lemma BlankControlAgrees(control: string, host: string, roots: seq<string>, raws: seq<string>, raw: string)
    requires UnderControl(control, raw) && ResolveWorktree(control, host, roots, Some(raw)).Ok? && Normalize(host).Ok?
    requires ValidatedRoots(roots, raws, host) && HostSeparator(host) == '/' && EndsInSpace(host)
    requires StripRight(LastName(host)) !in {"", ".", ".."} && ControlRel(control, raw) != ""
    ensures var n, tail := ResolveWorktree(control, host, roots, Some(raw)).value, ControlTail(control, host, raw);
            Passes(n, host, roots) <==>
              Lands(TailNames(tail), TailEnd(tail)) || UnderRoot(Settle(ControlPlace(control, host, raw)), roots)
  {
    hide *;
    var tail := ControlTail(control, host, raw);
    ControlPath(control, host, roots, raw);
    ControlAgrees(control, host, roots, raws, raw);
    SlashIsPosix(host);
    EndIsStripped(tail);
    BlankPlace(control, host, raw);
    PosixContained(Settle(ControlPlace(control, host, raw)), host, roots, raws);
    StepName(Directory(host), StripRight(LastName(host)));
    LandsOrLeaves(host, TailNames(tail), TailEnd(tail));
  }

  /** If no name is left when it is stripped, only a bare parent segment can lead the gate out of the workspace. */
  lemma LostNameControlAgrees(control: string, host: string, roots: seq<string>, raws: seq<string>, raw: string)
    requires UnderControl(control, raw) && ResolveWorktree(control, host, roots, Some(raw)).Ok? && Normalize(host).Ok?
    requires ValidatedRoots(roots, raws, host) && HostSeparator(host) == '/' && EndsInSpace(host)
    requires StripRight(LastName(host)) in {"", ".", ".."} && ControlRel(control, raw) != ""
    ensures var n, w := ResolveWorktree(control, host, roots, Some(raw)).value, Normalize(host).value;
            var tail := ControlTail(control, host, raw);
            Passes(n, host, roots) <==>
              !(TailNames(tail) == [] && TailEnd(tail) == "..") || Location(w) <= Settle(Directory(host))
  {
    hide *;
    var tail := ControlTail(control, host, raw);
    ControlPath(control, host, roots, raw);
    ControlAgrees(control, host, roots, raws, raw);
    SlashIsPosix(host);
    EndIsStripped(tail);
    BlankPlace(control, host, raw);
    PosixContained(Settle(ControlPlace(control, host, raw)), host, roots, raws);
    StaysOrParent(Directory(host), LastName(host), TailNames(tail), TailEnd(tail));
  }

  lemma BlankPlace(control: string, host: string, raw: string)
    requires ValidatePath(host).None? && Normalize(host).Ok? && HostSeparator(host) == '/' && EndsInSpace(host)
    requires ControlRel(control, raw) != ""
    ensures var tail, c := ControlTail(control, host, raw), Directory(host) + [LastName(host)];
            && ControlPlace(control, host, raw) == Step(c + TailNames(tail), TailEnd(tail))
            && Location(Normalize(host).value) == Step(Directory(host), StripRight(LastName(host)))
            && EndsInSpace(LastName(host))
  {
    hide Normalize, ValidatePath, ControlRel, ControlTail, Directory, LastName, Location, TailNames, TailEnd;
    hide StripRight;
    PosixStart(host);
    BlankLocation(host);
    NormalizeKeepsLocation(host);
    DirectoryLocation(host);
  }

  lemma LandsOrLeaves(host: string, names: seq<string>, end: string)
    requires EndsInSpace(LastName(host)) && StripRight(LastName(host)) !in {"", ".", ".."} && StripRight(end) == end
    ensures var c, w := Directory(host) + [LastName(host)], Directory(host) + [StripRight(LastName(host))];
            w <= Settle(Step(c + names, end)) <==> Lands(names, end)
  {
    hide Directory, LastName, Climbs, Step;
    var dir, last := Directory(host), LastName(host);
    var c, w := dir + [last], dir + [StripRight(last)];
    SettlesBelow(c, names, end);
    assert c[..|c| - 1] == dir;
    assert Settle(c) == w by { StepName(dir, StripRight(last)); }
    assert StripRight(last) != last;
    SettledInit(dir);
    ClimbsOrLands(names, end);
    var place := Settle(Step(c + names, end));
    if c <= place {
      assert place[|dir|] == last;
    }
  }

  lemma SettledStep(dir: seq<string>)
    ensures var s := Settle(dir); dir != [] ==> s == [] || s[..|s| - 1] <= dir[..|dir| - 1]
  {
    hide StripRight;
  }

  lemma StaysOrParent(dir: seq<string>, last: string, names: seq<string>, end: string)
    requires StripRight(last) in {"", ".", ".."} && StripRight(end) == end
    ensures var place, w := Settle(Step(dir + [last] + names, end)), Step(dir, StripRight(last));
            && (w <= place <==> !(names == [] && end == "..") || w <= Settle(dir))
            && (w <= place || place == [] || place[..|place| - 1] <= w)
  {
    hide Settle, StripRight, ReadsUp;
    var c := dir + [last];
    SettlesBelow(c, names, end);
    assert c[..|c| - 1] == dir;
    assert Settle(c) == Step(dir, StripRight(last)) by { SettleOfLast(dir, last); }
    SettledInit(dir);
    SettledStep(dir);
  }

  lemma SettleOfLast(dir: seq<string>, last: string)
    ensures Settle(dir + [last]) == Step(dir, StripRight(last))
  {
    var c := dir + [last];
    assert c[..|c| - 1] == dir;
  }

  lemma StepName(at: seq<string>, seg: string)
    requires seg !in {"", ".", ".."}
    ensures Step(at, seg) == at + [seg]
  {
  }

  lemma ClimbsOrLands(names: seq<string>, end: string)
    ensures !(Climbs(names, end) && Lands(names, end))
  {
  }

  // ---------------------------------------------------------------- workspaces joined by backslashes

  /** The text of a workspace that ends in backslashes, and its segments. */
  lemma BackslashText(host: string)
    requires host != "" && host[0] == '/' && host != RStrip(host, '\\')
    ensures var base := RStrip(host, '\\'); var more := host[|base|..];
            && host == base + more && more != "" && StripRight(host) == host
            && forall i | 0 <= i < |more| :: more[i] == '\\'
  {
    var base := RStrip(host, '\\');
    var more := host[|base|..];
    Dropped(host, '\\');
    hide RStrip;
    assert host == base + more;
    assert more != "";
    assert host[|host| - 1] == '\\';
  }

  lemma BackslashEnd(host: string)
    requires host != "" && host[0] == '/' && host != RStrip(host, '\\')
    ensures var base := RStrip(host, '\\'); var more := host[|base|..];
            && host == base + more && more != "" && StripRight(host) == host
            && (forall i | 0 <= i < |more| :: more[i] == '\\')
            && Location(host) == Directory(base) + [LastName(base) + more]
  {
    hide Split, Walk, RStrip, StripRight, Location, Step;
    var base := RStrip(host, '\\');
    var more := host[|base|..];
    BackslashText(host);
    assert '/' !in more;
    SplitExtended(base, more);
    DirectoryLocation(host);
    var init, name := Split(base)[..|Split(base)| - 1], LastName(base) + more;
    assert Split(host) == init + [name];
    assert Split(host)[..|Split(host)| - 1] == init;
    assert LastName(host) == name;
    assert name[|LastName(base)|] == more[0] == '\\';
    StepName(Directory(base), name);
  }

  lemma {:induction false} Dropped(s: string, c: char)
    ensures forall i | |RStrip(s, c)| <= i < |s| :: s[i] == c
  {
    if s != "" && s[|s| - 1] == c {
      Dropped(s[..|s| - 1], c);
    }
  }

  lemma LongNameSettles(dir: seq<string>, last: string, q: string)
    requires StripRight(q) == q
    ensures var place := dir + [last + "\\" + q]; Settle(place) == place && place[..|place| - 1] == dir
  {
    hide StripRight, Step;
    var name := last + "\\" + q;
    var place := dir + [name];
    assert place[..|place| - 1] == dir && place[|place| - 1] == name;
    StripRightOf(last + "\\", q);
    assert name[|last|] == '\\';
    StepName(dir, name);
  }

  lemma InnerStart(rel: string, sep: char)
    ensures Inner(rel, sep) == "" || Inner(rel, sep)[0] != sep
  {
  }

  /** A run of backslashes is a backslash and a text that starts with none exactly if it is one backslash. */
  lemma OneBackslash(last: string, more: string, q: string)
    requires more != "" && (forall i | 0 <= i < |more| :: more[i] == '\\') && (q == "" || q[0] != '\\')
    ensures last + more == last + "\\" + q <==> more == "\\" && q == ""
  {
    assert last + "\\" + q == last + ("\\" + q);
    assert |more| >= 2 && q != "" ==> more[1] != ("\\" + q)[1];
    if last + more == last + ("\\" + q) {
      assert more == (last + more)[|last|..] == ("\\" + q);
    }
  }

  /** Where a workspace joined by backslashes stands, next to its control paths. */
  lemma BackslashHost(host: string)
    requires ValidatePath(host).None? && Normalize(host).Ok?
    ensures var base, w := RStrip(host, '\\'), Location(Normalize(host).value);
            && host != "" && base <= host
            && (host == base ==> w == Step(Directory(base), StripRight(LastName(base))))
            && (host != base ==> w == Directory(base) + [LastName(base) + host[|base|..]])
  {
    hide Normalize, ValidatePath, Location, StripRight, Directory, LastName;
    PosixStart(host);
    NormalizeKeepsLocation(host);
    DirectoryLocation(host);
    if host != RStrip(host, '\\') {
      BackslashEnd(host);
    }
  }

  /** A step stays in a directory, or leaves it, exactly by a segment that names nothing. */
  lemma StepAndName(dir: seq<string>, seg: string, name: string)
    requires |seg| < |name|
    ensures Step(dir, seg) <= dir + [name] <==> seg in {"", ".", ".."}
  {
    if seg !in {"", ".", ".."} {
      assert (dir + [seg])[|dir|] != (dir + [name])[|dir|];
    } else if seg == ".." && dir != [] {
      assert dir[..|dir| - 1] <= dir + [name];
    }
  }

  lemma NamesDiffer(dir: seq<string>, a: string, b: string)
    ensures dir + [a] <= dir + [b] <==> a == b
  {
    if dir + [a] <= dir + [b] {
      assert (dir + [a])[|dir|] == (dir + [b])[|dir|];
    }
  }

  /**
   A control context of a workspace joined by backslashes, not taken for a drive, is one long name beside the workspace.
   It passes the gate exactly if the workspace's own last name is none once it is stripped, or if the workspace ends in
   one backslash and nothing is left of the tail.
   */
  lemma BackslashControlAgrees(control: string, host: string, roots: seq<string>, raws: seq<string>, raw: string)
    requires UnderControl(control, raw) && ResolveWorktree(control, host, roots, Some(raw)).Ok? && Normalize(host).Ok?
    requires ValidatedRoots(roots, raws, host) && HostSeparator(host) == '\\' && !LooksLikeDrive(Normalize(host).value)
    requires ControlRel(control, raw) != ""
    ensures var n, base := ResolveWorktree(control, host, roots, Some(raw)).value, RStrip(host, '\\');
            Passes(n, host, roots) <==>
              || (host == base && StripRight(LastName(base)) in {"", ".", ".."})
              || (host == base + "\\" && StripRight(ControlTail(control, host, raw)) == "")
  {
    hide Normalize, UnderControl, ResolveWorktree, ValidatePath, ValidatedRoots, LooksLikeDrive, Passes, Contained;
    hide ControlRel, Inner;
    hide Step, Location, StripRight, Directory, LastName, Settle, UnderRoot, HostSeparator, RStrip;
    var base, q := RStrip(host, '\\'), StripRight(ControlTail(control, host, raw));
    var dir, last := Directory(base), LastName(base);
    var place := dir + [last + "\\" + q];
    ControlPath(control, host, roots, raw);
    ControlAgrees(control, host, roots, raws, raw);
    assert ControlPlace(control, host, raw) == place;
    StrippedOnce(ControlTail(control, host, raw));
    LongNameSettles(dir, last, q);
    PosixContained(place, host, roots, raws);
    BackslashHost(host);
    if host == base {
      StepAndName(dir, StripRight(last), last + "\\" + q);
      assert StripRight(last) !in {"", ".", ".."} ==> dir <= Step(dir, StripRight(last)) by {
        if StripRight(last) !in {"", ".", ".."} {
          StepName(dir, StripRight(last));
        }
      }
    } else {
      var more := host[|base|..];
      PosixStart(host);
      BackslashEnd(host);
      InnerStart(ControlRel(control, raw), '\\');
      OneBackslash(last, more, q);
      NamesDiffer(dir, last + more, last + "\\" + q);
      assert dir <= dir + [last + more];
      assert host == base + "\\" <==> more == "\\";
    }
  }

  lemma {:induction false} RStripMore(s: string, more: string, c: char)
    requires forall i | 0 <= i < |more| :: more[i] == c
    ensures RStrip(s + more, c) == RStrip(s, c)
  {
    if more == "" {
      assert s + more == s;
    } else {
      assert (s + more)[..|s + more| - 1] == s + more[..|more| - 1];
      RStripMore(s, more[..|more| - 1], c);
    }
  }

  lemma LastNameStays(host: string)
    requires host != "" && host[0] == '/'
    ensures var last := LastName(RStrip(host, '\\')); RStrip(last, '\\') == last
  {
    var base := RStrip(host, '\\');
    RStripKeeps(host);
    RStripEnd(host, '\\');
    if base[|base| - 1] == '/' {
      assert base == base[..|base| - 1] + "/" + "";
      SplitConcat(base[..|base| - 1], "");
    } else {
      SplitEnd(base);
    }
  }

  lemma BeneathName(dir: seq<string>, x: string, name: string)
    requires StartsWithColon(dir + [x])
    requires RStrip(x, '\\') + "\\" <= name
    ensures dir + [name] == dir + [x] || Beneath(dir + [x], dir + [name])
  {
    hide RStrip;
    assert (dir + [x])[|dir|] == x && (dir + [name])[|dir|] == name;
    assert (dir + [x])[..|dir|] == dir == (dir + [name])[..|dir|];
  }

  /**
   A workspace taken for a drive is joined by backslashes and tested with them: every control path but the root's own
   passes, unless the workspace's last name is lost or shortened when it is stripped.
   */
  lemma ColonControlPasses(control: string, host: string, roots: seq<string>, raws: seq<string>, raw: string)
    requires UnderControl(control, raw) && ResolveWorktree(control, host, roots, Some(raw)).Ok? && Normalize(host).Ok?
    requires ValidatedRoots(roots, raws, host) && LooksLikeDrive(Normalize(host).value)
    requires ControlRel(control, raw) != ""
    requires var base := RStrip(host, '\\');
             host == base ==> LastName(base) !in {"", ".", ".."} && !EndsInSpace(LastName(base))
    ensures Passes(ResolveWorktree(control, host, roots, Some(raw)).value, host, roots)
  {
    hide Normalize, UnderControl, ResolveWorktree, ValidatePath, ValidatedRoots, LooksLikeDrive, Passes, ControlRel;
    hide Inner, Beneath;
    hide Step, Location, StripRight, Directory, LastName, Settle, UnderRoot, RStrip, StartsWithColon;
    var base, q := RStrip(host, '\\'), StripRight(ControlTail(control, host, raw));
    var dir, last := Directory(base), LastName(base);
    var place, more := dir + [last + "\\" + q], host[|base|..];
    ControlPath(control, host, roots, raw);
    ControlAgrees(control, host, roots, raws, raw);
    if HostSeparator(host) == '/' {
      SlashIsPosix(host);
      assert false;
    }
    StrippedOnce(ControlTail(control, host, raw));
    LongNameSettles(dir, last, q);
    BackslashHost(host);
    PosixStart(host);
    LastNameStays(host);
    NormalizeKeepsLocation(host);
    ColonOfNormal(Normalize(host).value);
    var x := last + more;
    if host == base {
      assert more == "" && x == last;
      assert StripRight(last) == last by { StrippedHost(last); }
      StepName(dir, last);
    } else {
      BackslashEnd(host);
    }
    RStripMore(last, more, '\\');
    assert last + "\\" <= last + "\\" + q;
    BeneathName(dir, x, last + "\\" + q);
  }
}
