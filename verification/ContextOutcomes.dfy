/** Which worktree paths the resolution of an execution context accepts, branch by branch, for a POSIX workspace. */
module ContextOutcomes {
  import opened Text
  import opened Paths
  import opened WorktreeRoots
  import opened ExecutionContext

  /** A path the context may name: absolute, on one line, and without parent or self segments by either separator. */
  predicate IsUsable(path: string) {
    path != "" && !HasBreak(path) && IsAbs(path) && NoDots(Split(Slashes(path)))
  }

  /** What normalization demands of a path that starts with one slash. */
  predicate IsStorable(path: string) {
    NoControl(Strip(path)) && |Strip(path)| <= MAX_PATH_LEN
  }

  lemma UsableExactly(path: string)
    ensures ValidatePath(path).None? <==> IsUsable(path)
    ensures HasTraversal(path) <==> !NoDots(Split(Slashes(path)))
  {
    hide Split;
  }

  /** An absolute path does not start with whitespace. */
  lemma UsableIsNotBlank(path: string)
    requires IsUsable(path)
    ensures Strip(path) != ""
  {
    hide NoDots, Split, Slashes, HasBreak;
    StripKeepsStart(path);
  }

  // ---------------------------------------------------------------- segments survive the join

  lemma JoinedDots(a: string, b: string)
    ensures NoDots(Split(a + "/" + b)) <==> NoDots(Split(a)) && NoDots(Split(b))
  {
    SplitConcat(a, b);
    var x, y := Split(a), Split(b);
    hide Split;
    if NoDots(x + y) {
      assert forall i | 0 <= i < |x| :: (x + y)[i] == x[i];
      assert forall i | 0 <= i < |y| :: (x + y)[|x| + i] == y[i];
    }
  }

  lemma {:induction false} TrimmedRight(path: string, sep: char)
    requires sep in {'/', '\\'} && NoDots(Split(Slashes(path)))
    ensures NoDots(Split(Slashes(RStrip(path, sep))))
  {
    hide NoDots, Split;
    if path != "" && path[|path| - 1] == sep {
      var t := path[..|path| - 1];
      assert Slashes(path) == Slashes(t) + "/" + "";
      JoinedDots(Slashes(t), "");
      TrimmedRight(t, sep);
    }
  }

  lemma {:induction false} TrimmedLeft(path: string, sep: char)
    requires sep in {'/', '\\'} && NoDots(Split(Slashes(path)))
    ensures NoDots(Split(Slashes(LStrip(path, sep))))
  {
    hide NoDots, Split;
    if path != "" && path[0] == sep {
      var t := path[1..];
      assert Slashes(path) == "" + "/" + Slashes(t);
      JoinedDots("", Slashes(t));
      TrimmedLeft(t, sep);
    }
  }

  lemma InnerChars(rel: string, sep: char, c: char)
    requires c in Inner(rel, sep)
    ensures c in WithSeparator(rel, sep)
  {
    var text := WithSeparator(rel, sep);
    assert Inner(rel, sep) <= LStrip(text, sep);
    assert c in LStrip(text, sep);
  }

  lemma InnerSegments(rel: string, sep: char)
    requires sep in {'/', '\\'} && NoDots(Split(Slashes(rel)))
    ensures NoDots(Split(Slashes(Inner(rel, sep))))
  {
    hide Split, NoDots, RStrip, LStrip;
    var text := WithSeparator(rel, sep);
    assert Slashes(text) == Slashes(rel);
    TrimmedLeft(text, sep);
    TrimmedRight(LStrip(text, sep), sep);
  }

  lemma SlashInner(rel: string)
    ensures Slashes(Inner(rel, '/')) == Inner(rel, '/')
  {
    hide Inner;
    var inner := Inner(rel, '/');
    forall i | 0 <= i < |inner| ensures inner[i] != '\\' {
      InnerChars(rel, '/', inner[i]);
    }
  }

  lemma InnerHasNoDots(rel: string, sep: char)
    requires sep in {'/', '\\'} && NoDots(Split(Slashes(rel)))
    ensures NoDots(Split(Slashes(Inner(rel, sep)))) && !Traverses(Inner(rel, sep), sep)
  {
    hide Split, Inner, Slashes, NoDots, Traverses;
    InnerSegments(rel, sep);
    SlashInner(rel);
    TraversesExactly(Inner(rel, sep), sep);
  }

  lemma TraversesExactly(path: string, sep: char)
    ensures Traverses(path, sep) <==> !NoDots(Split(if sep == '/' then path else Slashes(path)))
  {
    hide Split, Slashes;
  }

  // ---------------------------------------------------------------- the three branches

  /** The text a control path is joined to, before it is normalized. */
  function ControlText(control: string, host: string, raw: string): string {
    var sep := HostSeparator(host);
    if ControlRel(control, raw) == "" then host else RStrip(host, sep) + [sep] + ControlTail(control, host, raw)
  }

  /** Below the control root nothing traverses, if the raw path does not. */
  lemma RelHasNoDots(control: string, host: string, raw: string)
    requires NoDots(Split(Slashes(raw)))
    ensures NoDots(Split(Slashes(ControlTail(control, host, raw))))
    ensures !Traverses(ControlTail(control, host, raw), HostSeparator(host))
  {
    hide Split, NoDots, Inner, Traverses;
    var rel, root := ControlRel(control, raw), ControlRoot(control);
    if rel != "" {
      assert Slashes(raw) == root + "/" + rel;
      JoinedDots(root, rel);
      assert Slashes(rel) == rel;
    } else {
      EmptyHasNoDots();
    }
    IsSeparator(host);
    InnerHasNoDots(rel, HostSeparator(host));
  }

  lemma EmptyHasNoDots()
    ensures NoDots(Split(Slashes("")))
  {
    assert Slashes("") == "";
  }

  lemma ControlTextIsUsable(control: string, host: string, raw: string)
    requires IsUsable(host) && host[0] == '/' && IsUsable(raw)
    ensures IsUsable(ControlText(control, host, raw)) && ControlText(control, host, raw)[0] == '/'
  {
    var sep, tail := HostSeparator(host), ControlTail(control, host, raw);
    hide Split, NoDots, Inner, ControlRel, ControlTail, HasBreak, HostSeparator;
    if ControlRel(control, raw) != "" {
      IsSeparator(host);
      TextHasNoBreak(control, host, raw);
      TextHasNoDots(control, host, raw);
      RStripKeeps(host);
      assert RStrip(host, sep) == "" || RStrip(host, sep)[0] == '/';
    }
  }

  lemma TextHasNoDots(control: string, host: string, raw: string)
    requires NoDots(Split(Slashes(host))) && NoDots(Split(Slashes(raw)))
    ensures NoDots(Split(Slashes(ControlText(control, host, raw))))
  {
    hide Split, NoDots, ControlRel, ControlTail, HostSeparator;
    var sep, tail := HostSeparator(host), ControlTail(control, host, raw);
    var base := RStrip(host, sep);
    hide RStrip;
    IsSeparator(host);
    RelHasNoDots(control, host, raw);
    TrimmedRight(host, sep);
    SlashesOfJoin(base, sep, tail);
    JoinedDots(Slashes(base), Slashes(tail));
  }

  lemma SlashesOfJoin(base: string, sep: char, tail: string)
    requires sep in {'/', '\\'}
    ensures Slashes(base + [sep] + tail) == Slashes(base) + "/" + Slashes(tail)
  {
  }

  lemma TextHasNoBreak(control: string, host: string, raw: string)
    requires !HasBreak(host) && !HasBreak(raw)
    ensures !HasBreak(ControlText(control, host, raw))
  {
    var sep, rel := HostSeparator(host), ControlRel(control, raw);
    IsSeparator(host);
    hide HostSeparator;
    if rel != "" {
      var base, inner := RStrip(host, sep), Inner(rel, sep);
      forall c | c in inner ensures c in raw || c in {'/', '\\'} {
        InnerChars(rel, sep, c);
        RelChars(control, raw, sep, c);
      }
      hide ControlRel, Inner, RStrip;
      var text := base + [sep] + inner;
      forall c | c in text ensures c in host || c in raw || c in {'/', '\\'} {
        assert c in base ==> c in host;
      }
    }
  }

  lemma RelChars(control: string, raw: string, sep: char, c: char)
    requires c in WithSeparator(ControlRel(control, raw), sep) && sep in {'/', '\\'}
    ensures c in raw || c in {'/', '\\'}
  {
    var rel := ControlRel(control, raw);
    var j :| 0 <= j < |rel| && WithSeparator(rel, sep)[j] == c;
    assert rel[j] in Slashes(raw);
    hide ControlRel, ControlRoot;
    var k :| 0 <= k < |raw| && Slashes(raw)[k] == rel[j];
    assert raw[k] in raw;
  }

  /** A usable text that starts with one slash normalizes exactly if it is storable. */
  lemma StorableExactly(path: string)
    requires path != "" && path[0] == '/' && (|path| > 1 ==> path[1] != '/')
    ensures Normalize(path).Ok? <==> IsStorable(path)
  {
    hide NoControl, NormPath;
    StripKeepsStart(path);
  }

  /** Two leading slashes are taken for a network share. */
  lemma TwoSlashes(path: string)
    requires |path| >= 2 && path[..2] == "//"
    ensures Normalize(path).Err?
  {
    hide NoControl, NormPath;
    assert path[0] == '/' && path[1] == '/';
    StripKeepsStart(path);
    hide Strip, StripRight;
  }

  /** A POSIX workspace starts with exactly one slash. */
  lemma HostStart(host: string)
    requires IsUsable(host) && Normalize(host).Ok?
    ensures host != "" && host[0] == '/' && (|host| > 1 ==> host[1] != '/')
  {
    UsableExactly(host);
    PosixStart(host);
    hide Normalize, IsUsable, ValidatePath, HasTraversal;
    if |host| > 1 && host[1] == '/' {
      assert host[..2] == "//";
      TwoSlashes(host);
    }
  }

  lemma TextStart(control: string, host: string, raw: string)
    requires host != "" && host[0] == '/' && (|host| > 1 ==> host[1] != '/')
    ensures var text := ControlText(control, host, raw); text != "" && text[0] == '/' && (|text| > 1 ==> text[1] != '/')
  {
    var sep, rel := HostSeparator(host), ControlRel(control, raw);
    IsSeparator(host);
    if rel != "" {
      hide HostSeparator, ControlRel, WithSeparator;
      RStripKeeps(host);
      RStripEnd(host, sep);
      InnerIsTrimmed(rel, sep);
      var base, inner := RStrip(host, sep), Inner(rel, sep);
      hide Inner, RStrip;
      assert |base| > 1 ==> (base + [sep] + inner)[1] == host[1];
      assert |base| == 1 ==> (base + [sep] + inner)[1] == sep;
      assert base == "" && inner != "" ==> (base + [sep] + inner)[1] == inner[0];
    }
  }

  lemma InnerIsTrimmed(rel: string, sep: char)
    ensures Inner(rel, sep) != "" ==> Inner(rel, sep)[0] != sep
  {
    hide WithSeparator;
  }

  /** The checks around every branch, for a usable workspace. */
  lemma BranchResolves(control: string, host: string, roots: seq<string>, raw: Option<string>)
    requires IsUsable(host)
    ensures var r, found := ResolveWorktree(control, host, roots, raw), BranchPath(control, host, roots, raw);
            if found.Err? then r.Err? else
              var path := if found.value == "" then host else found.value;
              && (r.Ok? <==> IsUsable(path) && Normalize(path).Ok?)
              && (r.Ok? ==> Ok(r.value) == Normalize(path))
  {
    UsableIsNotBlank(host);
    UsableExactly(host);
    var found := BranchPath(control, host, roots, raw);
    if found.Ok? {
      UsableExactly(found.value);
    }
    hide IsUsable, Normalize, Strip, ValidatePath, BranchPath, HasTraversal;
  }

  /** Without a worktree path: accepted exactly if the workspace's own path is usable and normalizes. */
  lemma DefaultResolvesExactly(control: string, host: string, roots: seq<string>)
    ensures ResolveWorktree(control, host, roots, None).Ok? <==> IsUsable(host) && Normalize(host).Ok?
    ensures ResolveWorktree(control, host, roots, None).Ok? ==>
              Ok(ResolveWorktree(control, host, roots, None).value) == Normalize(host)
  {
    UsableExactly(host);
    if IsUsable(host) { UsableIsNotBlank(host); }
    hide IsUsable, Normalize, Strip, ValidatePath;
  }

  /**
   A control path over a usable POSIX workspace: accepted exactly if it is usable itself and the joined text is
   storable, whatever the separators; the stored path is that text, normalized.
   */
  lemma ControlResolvesExactly(control: string, host: string, roots: seq<string>, raw: string)
    requires IsUsable(host) && Normalize(host).Ok? && UnderControl(control, raw) && raw != ""
    ensures var r, text := ResolveWorktree(control, host, roots, Some(raw)), ControlText(control, host, raw);
            && (r.Ok? <==> IsUsable(raw) && IsStorable(text))
            && (r.Ok? ==> Ok(r.value) == Normalize(text))
  {
    hide IsStorable, Normalize, ResolveWorktree, IsUsable, ControlText, MapForeign, UnderControl, ResolveAllowlisted;
    HostStart(host);
    TextStart(control, host, raw);
    StorableExactly(ControlText(control, host, raw));
    BranchResolves(control, host, roots, Some(raw));
    MapsToText(control, host, raw);
    if IsUsable(raw) {
      ControlTextIsUsable(control, host, raw);
    }
  }

  lemma MapsToText(control: string, host: string, raw: string)
    requires UnderControl(control, raw) && raw != ""
    ensures if IsUsable(raw) then MapForeign(control, host, raw) == Ok(ControlText(control, host, raw))
            else MapForeign(control, host, raw).Err?
  {
    UsableExactly(raw);
    if IsUsable(raw) {
      RelHasNoDots(control, host, raw);
    }
    hide NoDots, Split, Inner, Traverses, HasTraversal, HostSeparator;
  }

  /**
   Any other path: accepted exactly if it holds no control character, traverses by neither separator as written nor as
   normalized, and its normal form lies beneath a root; the stored path is that form, normalized once more.
   */
  lemma SiblingResolvesExactly(control: string, host: string, roots: seq<string>, raw: string)
    requires IsUsable(host) && Normalize(host).Ok? && !UnderControl(control, raw)
    ensures var r := ResolveWorktree(control, host, roots, Some(raw));
            && (r.Ok? <==>
                  && raw != "" && NoControl(raw) && NoDots(Split(Slashes(raw))) && Normalize(raw).Ok?
                  && Under(Normalize(raw).value, roots) && NoDots(Split(Slashes(Normalize(raw).value))))
            && (r.Ok? ==> Ok(r.value) == Normalize(Normalize(raw).value))
  {
    hide Normalize, Split, NoDots, Under, NoControl, IsUsable, BranchPath, ResolveWorktree, Slashes;
    BranchResolves(control, host, roots, Some(raw));
    SiblingBranch(control, host, roots, raw);
    if Normalize(raw).Ok? {
      NormalIsUsable(raw);
    }
  }

  lemma SiblingBranch(control: string, host: string, roots: seq<string>, raw: string)
    requires !UnderControl(control, raw)
    ensures var r := BranchPath(control, host, roots, Some(raw));
            && (r.Ok? <==> && raw != "" && NoControl(raw) && NoDots(Split(Slashes(raw))) && Normalize(raw).Ok?
                           && Under(Normalize(raw).value, roots))
            && (r.Ok? ==> r.value == Normalize(raw).value)
  {
    UsableExactly(raw);
    hide Normalize, Split, NoDots, Under, NoControl, UnderControl, HasTraversal, Slashes;
  }

  lemma NormalIsUsable(raw: string)
    requires Normalize(raw).Ok?
    ensures var n := Normalize(raw).value;
            && n != "" && Normalize(n).Ok? && (IsUsable(n) <==> NoDots(Split(Slashes(n))))
  {
    var n := Normalize(raw).value;
    NormalizeKeepsLocation(raw);
    NormalizeAgain(n);
    NormalHasNoBreak(n);
    hide Normalize, Split, NoDots, Location;
  }

  lemma NormalHasNoBreak(n: string)
    requires IsNormal(n)
    ensures n != "" && n[0] == '/' && NoControl(n) && !HasBreak(n)
  {
    RenderIsClean(Location(n));
    hide Location;
  }

  // ---------------------------------------------------------------- which roots are allowed

  /**
   An entry of the allowlist is accepted exactly if it holds no control character, does not traverse, normalizes, and
   its place is not the filesystem's root, is read in the same flavour as the workspace, and is neither the workspace
   nor above it.
   */
  lemma RootAcceptedExactly(root: string, workspace: string)
    requires Normalize(workspace).Ok?
    ensures ValidateRoot(root, workspace).Ok? <==>
              && root != "" && NoControl(root) && NoDots(Split(Slashes(root))) && Normalize(root).Ok?
              && Normalize(root).value !in {"/", "/:\\"}
              && var r, w := Location(Normalize(root).value), Location(Normalize(workspace).value);
                 (StartsWithColon(r) <==> StartsWithColon(w)) && r != w && !Beneath(r, w)
    ensures ValidateRoot(root, workspace).Ok? ==> ValidateRoot(root, workspace).value == Normalize(root).value
  {
    UsableExactly(root);
    if Normalize(root).Ok? {
      RootPlace(Normalize(root).value, Normalize(workspace).value, root, workspace);
    }
    hide Normalize, NoControl, NoDots, Split, Slashes, HasTraversal, StartsWithColon, Beneath, Location, FlavourOf;
    hide IsStrictDescendant, IsFilesystemRoot;
  }

  lemma RootPlace(n: string, w: string, root: string, workspace: string)
    requires Normalize(root) == Ok(n) && Normalize(workspace) == Ok(w)
    ensures IsFilesystemRoot(n) <==> n in {"/", "/:\\"}
    ensures FlavourOf(n) == FlavourOf(w) <==> (StartsWithColon(Location(n)) <==> StartsWithColon(Location(w)))
    ensures n == w <==> Location(n) == Location(w)
    ensures IsStrictDescendant(w, n) <==> Beneath(Location(n), Location(w))
  {
    NormalizeKeepsLocation(root);
    NormalizeKeepsLocation(workspace);
    hide Normalize, IsStrictDescendant, Beneath, StartsWithColon;
    DescendantIsBeneath(w, n);
    FlavourByColon(n);
    FlavourByColon(w);
    SameLocation(n, w);
    NormalHasNoBreak(n);
    hide Location, IsNormal;
    assert |n| == 3 && n[1] == ':' && n[2] == '\\' ==> n == "/:\\";
  }

  lemma FlavourByColon(n: string)
    requires IsNormal(n)
    ensures FlavourOf(n) == if StartsWithColon(Location(n)) then Drive else Posix
  {
    ColonOfNormal(n);
    PosixFlavour(n);
    if LooksLikeDrive(n) {
      ColonFlavour(n);
    }
  }
}
