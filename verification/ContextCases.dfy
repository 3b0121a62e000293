/** The disagreements between submit and claim that `ExecutionContext` characterizes, on concrete paths. */
module ContextCases {
  import opened Text
  import opened Paths
  import opened WorktreeRoots
  import opened ExecutionContext

  lemma SlashesStay(s: string)
    requires '\\' !in s
    ensures Slashes(s) == s
  {
  }

  lemma StripStays(s: string)
    requires s != "" && !IsSpace(s[0]) && !IsSpace(s[|s| - 1])
    ensures Strip(s) == s
  {
    assert StripLeft(s) == s && StripRight(s) == s;
  }

  lemma SplitTwo(a: string, b: string)
    requires '/' !in a && '/' !in b
    ensures Split("/" + a + "/" + b) == ["", a, b]
  {
    assert ("/" + a + "/" + b)[1..] == a + "/" + b;
    SplitOfSegment(a, b);
    SplitOfSegment(b, "");
    assert [a] + [b] == [a, b];
  }

  lemma NoTraversalOfTwo(a: string, b: string)
    requires '/' !in a && '/' !in b && '\\' !in a && '\\' !in b && a !in {".", ".."} && b !in {".", ".."}
    ensures !HasTraversal("/" + a + "/" + b)
  {
    SlashesStay("/" + a + "/" + b);
    SplitTwo(a, b);
  }

  lemma NoTraversalOfOne(a: string)
    requires '/' !in a && '\\' !in a && a !in {".", ".."}
    ensures !HasTraversal("/" + a)
  {
    SlashesStay("/" + a);
    assert ("/" + a)[1..] == a;
    SplitOfSegment(a, "");
  }

  lemma HiddenParentNormal()
    ensures Normalize("/w/.. ") == Ok("/") && Normalize("/w") == Ok("/w") && Normalize("/") == Ok("/")
  {
    hide Normalize, IsWindows;
    NormalOfRoot();
    assert Render(["w"]) == "/w" && Render(["w", ".. "]) == "/w/.. " && Render([]) == "/";
    NormalizeSettles(["w"]);
    assert ["w"][..0] == [] && ["w", ".. "][..1] == ["w"];
    assert StripRight("w") == "w";
    assert StripRight(".. ") == ".." by { assert ".. "[..2] == ".."; }
    NormalizeSettles(["w", ".. "]);
  }

  /** Joining one relative path that needs no trimming. */
  lemma Joined(host: string, rel: string, sep: char)
    requires host != "" && rel != "" && HostSeparator(host) == sep && host[|host| - 1] != sep
    requires WithSeparator(rel, sep) == rel && rel[0] != sep && rel[|rel| - 1] != sep && !Traverses(rel, sep)
    ensures JoinHost(host, rel) == Ok(host + [sep] + rel)
  {
    assert LStrip(rel, sep) == rel && RStrip(rel, sep) == rel && RStrip(host, sep) == host;
  }

  /** Mapping a control path that is the control root, a separator and a relative path. */
  lemma MappedUnder(control: string, host: string, raw: string, rel: string)
    requires control != "" && control[0] == '/' && control[|control| - 1] != '/' && raw == control + "/" + rel
    requires '\\' !in raw
    requires !HasBreak(raw) && !HasTraversal(raw)
    ensures BranchPath(control, host, [], Some(raw)) == JoinHost(host, rel)
  {
    hide HasTraversal, HasBreak, JoinHost;
    assert '\\' !in control by { assert forall c | c in control :: c in raw; }
    SlashesStay(control);
    SlashesStay(raw);
    assert ControlRoot(control) == control;
    PrefixUnderStem(control + "/", "", rel);
    assert control + "/" + "" == control + "/";
    assert raw[|control| + 1..] == rel;
    PrefixAt("/", raw, 0);
  }

  lemma HiddenParentJoined()
    ensures JoinHost("/w", ".. ") == Ok("/w/.. ")
  {
    hide JoinHost, HasTraversal, Split;
    SplitOfSegment(".. ", "");
    assert WithSeparator(".. ", '/') == ".. ";
    Joined("/w", ".. ", '/');
    assert "/w" + ['/'] + ".. " == "/w/.. ";
  }

  lemma HiddenParentMapped()
    ensures BranchPath("/c", "/w", [], Some("/c/.. ")) == Ok("/w/.. ")
  {
    hide JoinHost, BranchPath, HasTraversal, Slashes, Split;
    NoTraversalOfTwo("c", ".. ");
    assert "/c/.. " == "/" + "c" + "/" + ".. ";
    HiddenParentJoined();
    MappedUnder("/c", "/w", "/c/.. ", ".. ");
  }

  /**
   A control path whose parent segment hides behind a space resolves to the directory above the workspace, and the gate
   refuses it.
   */
  lemma HiddenParentClimbs()
    ensures ResolveWorktree("/c", "/w", [], Some("/c/.. ")) == Ok("/") && !Passes("/", "/w", [])
  {
    hide *;
    HiddenParentResolves();
    HiddenParentNormal();
    RootIsNotBelow();
    assert |"/"| != |"/w"|;
    Refused("/", "/w", "/", "/w");
  }

  lemma RootIsNotBelow()
    ensures !IsStrictDescendant("/", "/w")
  {
    assert RStrip("/w", '/') == "/w";
    assert "/w"[..2][0] == '/';
  }

  lemma HiddenParentResolves()
    ensures ResolveWorktree("/c", "/w", [], Some("/c/.. ")) == Ok("/")
  {
    hide Normalize, BranchPath, HasTraversal, Strip;
    HiddenParentMapped();
    HiddenParentNormal();
    NoTraversalOfOne("w");
    assert "/w" == "/" + "w";
    NoTraversalOfTwo("w", ".. ");
    assert "/w/.. " == "/" + "w" + "/" + ".. ";
    OneNameIsText();
  }

  lemma OneNameIsText()
    ensures Strip("/w") != ""
  {
    StripStays("/w");
  }

  lemma BlankEndNormal()
    ensures Normalize("/a /x") == Ok("/a /x") && Normalize("/a ") == Ok("/a")
  {
    hide Normalize, IsWindows;
    assert Render(["a ", "x"]) == "/a /x" && Render(["a "]) == "/a " && Render(["a"]) == "/a";
    NormalizeSettles(["a ", "x"]);
    assert ["a ", "x"][..1] == ["a "] && ["a "][..0] == [];
    assert StripRight("x") == "x";
    assert StripRight("a ") == "a" by { assert "a "[..1] == "a"; }
    NormalizeSettles(["a "]);
    assert ["a "] + ["x"] == ["a ", "x"];
  }

  lemma BlankEndJoined()
    ensures JoinHost("/a ", "x") == Ok("/a /x")
  {
    hide JoinHost, HasTraversal, Split;
    SplitOfSegment("x", "");
    assert WithSeparator("x", '/') == "x";
    Joined("/a ", "x", '/');
    assert "/a " + ['/'] + "x" == "/a /x";
  }

  lemma BlankEndMapped()
    ensures BranchPath("/c", "/a ", [], Some("/c/x")) == Ok("/a /x")
  {
    hide JoinHost, BranchPath, HasTraversal, Slashes, Split;
    NoTraversalOfTwo("c", "x");
    assert "/c/x" == "/" + "c" + "/" + "x";
    BlankEndJoined();
    MappedUnder("/c", "/a ", "/c/x", "x");
  }

  lemma SpacedIsNotBelow()
    ensures !IsStrictDescendant("/a /x", "/a") && Strip("/a ") != ""
  {
    assert RStrip("/a", '/') == "/a";
    PrefixAt("/a" + "/", "/a /x", 2);
    assert StripLeft("/a ") == "/a ";
    StripRightOf("/", "a ");
    assert "/" + "a " == "/a ";
  }

  lemma BlankWorkspaceResolves()
    ensures ResolveWorktree("/c", "/a ", [], Some("/c/x")) == Ok("/a /x")
  {
    hide Normalize, BranchPath, HasTraversal, Strip;
    BlankEndMapped();
    BlankEndNormal();
    NoTraversalOfOne("a ");
    assert "/a " == "/" + "a ";
    NoTraversalOfTwo("a ", "x");
    assert "/a /x" == "/" + "a " + "/" + "x";
    SpacedIsNotBelow();
  }

  lemma Refused(path: string, host: string, n: string, w: string)
    requires Normalize(path) == Ok(n) && Normalize(host) == Ok(w) && n != w && !IsStrictDescendant(n, w)
    ensures !Passes(path, host, [])
  {
  }

  /** A workspace path that ends in a space: an ordinary control path resolves, and the gate refuses it. */
  lemma BlankWorkspaceDisagrees()
    ensures ResolveWorktree("/c", "/a ", [], Some("/c/x")) == Ok("/a /x") && !Passes("/a /x", "/a ", [])
  {
    hide *;
    BlankWorkspaceResolves();
    BlankEndNormal();
    SpacedIsNotBelow();
    assert |"/a /x"| != |"/a"|;
    Refused("/a /x", "/a ", "/a /x", "/a");
  }

  lemma BackslashNormal()
    ensures Normalize("/a\\b\\x") == Ok("/a\\b\\x") && Normalize("/a\\b") == Ok("/a\\b")
  {
    hide Normalize, IsWindows;
    assert Render(["a\\b\\x"]) == "/a\\b\\x" && Render(["a\\b"]) == "/a\\b";
    NormalizeSettles(["a\\b\\x"]);
    NormalizeSettles(["a\\b"]);
    assert ["a\\b\\x"][..0] == [] && ["a\\b"][..0] == [];
    assert StripRight("a\\b\\x") == "a\\b\\x" && StripRight("a\\b") == "a\\b";
  }

  lemma NoTraversalOfName()
    ensures !HasTraversal("x")
  {
    SplitOfSegment("x", "");
    SlashesStay("x");
  }

  lemma BackslashJoined()
    ensures JoinHost("/a\\b", "x") == Ok("/a\\b\\x")
  {
    hide JoinHost, HasTraversal, Split, Slashes;
    NoTraversalOfName();
    assert HostSeparator("/a\\b") == '\\' by { assert "/a\\b"[2] == '\\'; }
    assert WithSeparator("x", '\\') == "x";
    hide HostSeparator, WithSeparator;
    Joined("/a\\b", "x", '\\');
    assert "/a\\b" + ['\\'] + "x" == "/a\\b\\x";
  }

  lemma BackslashMapped()
    ensures BranchPath("/c", "/a\\b", [], Some("/c/x")) == Ok("/a\\b\\x")
  {
    hide JoinHost, BranchPath, HasTraversal, Slashes, Split;
    NoTraversalOfTwo("c", "x");
    assert "/c/x" == "/" + "c" + "/" + "x";
    BackslashJoined();
    MappedUnder("/c", "/a\\b", "/c/x", "x");
  }

  lemma BackslashSegments()
    ensures !HasTraversal("/a\\b") && !HasTraversal("/a\\b\\x")
  {
    assert Slashes("/a\\b") == "/a/b" && Slashes("/a\\b\\x") == "/a/b/x";
    SplitTwo("a", "b");
    assert "/a/b" == "/" + "a" + "/" + "b" && "/a/b/x" == "/a/b" + "/" + "x";
    SplitConcat("/a/b", "x");
    SplitOfSegment("x", "");
  }

  lemma BackslashIsBeside()
    ensures !IsStrictDescendant("/a\\b\\x", "/a\\b")
  {
    assert RStrip("/a\\b", '/') == "/a\\b";
    assert "/a\\b"[..2][0] == '/';
    PrefixAt("/a\\b" + "/", "/a\\b\\x", 4);
  }

  lemma BackslashIsText()
    ensures Strip("/a\\b") != ""
  {
    StripStays("/a\\b");
  }

  lemma BackslashResolves()
    ensures ResolveWorktree("/c", "/a\\b", [], Some("/c/x")) == Ok("/a\\b\\x")
  {
    hide Normalize, BranchPath, HasTraversal, Strip;
    BackslashMapped();
    BackslashNormal();
    BackslashSegments();
    BackslashIsText();
  }

  /**
   A workspace path with a backslash in a name is joined with backslashes: the result is one long name beside the
   workspace, and refused.
   */
  lemma BackslashWorkspaceDisagrees()
    ensures ResolveWorktree("/c", "/a\\b", [], Some("/c/x")) == Ok("/a\\b\\x") && !Passes("/a\\b\\x", "/a\\b", [])
  {
    hide *;
    BackslashResolves();
    BackslashNormal();
    BackslashIsBeside();
    assert |"/a\\b\\x"| != |"/a\\b"|;
    Refused("/a\\b\\x", "/a\\b", "/a\\b\\x", "/a\\b");
  }

  lemma BlankTraversal(root: string)
    requires !HasTraversal(root)
    ensures !HasTraversal(root + "/ ") && !HasTraversal(root + "/ /")
  {
    var text := Slashes(root);
    assert Slashes(root + "/ ") == text + "/" + " " && Slashes(root + "/ /") == text + "/" + " " + "/" + "";
    SplitConcat(text, " ");
    SplitConcat(text + "/" + " ", "");
    SplitOfSegment(" ", "");
    assert Split("") == [""];
  }

  lemma BlankPlain(root: string)
    requires IsNormal(root) && Location(root) != [] && |root| + 2 <= MAX_PATH_LEN
    ensures root + "/ " == Render(Location(root) + [" "]) && IsNormal(root + "/ ")
    ensures Location(root + "/ ") == Location(root) + [" "]
    ensures NoControl(root + "/ ") && !IsWindows(root + "/ ")
  {
    var segs := Location(root) + [" "];
    RenderLast(Location(root), " ");
    assert root + "/ " == root + "/" + " ";
    assert IsPlain(" ");
    LocationOfRender(segs);
    RenderIsClean(segs);
    RenderIsPosix(segs);
  }

  lemma BlankTrims(root: string)
    requires IsNormal(root) && !EndsInSpace(root) && Location(root) != [] && |root| + 2 <= MAX_PATH_LEN
    ensures Normalize(root + "/ ") == Ok(root) && Normalize(root) == Ok(root)
  {
    BlankPlain(root);
    hide Normalize, Location, Settle, IsWindows;
    NormalizeAgain(root + "/ ");
    NormalizeAgain(root);
    SettleStays(Location(root));
    EndOfRender(Location(root));
    SettleOfBlank(Location(root));
  }

  lemma SettleOfBlank(segs: seq<string>)
    ensures Settle(segs + [" "]) == segs
  {
    assert StripRight(" ") == "" by { assert " "[..0] == ""; }
    assert (segs + [" "])[..|segs|] == segs;
  }

  lemma BlankText(root: string)
    requires IsNormal(root) && Location(root) != [] && |root| + 3 <= MAX_PATH_LEN
    ensures var p := root + "/ /"; NoControl(p) && !IsWindows(p) && p[0] == '/' && Strip(p) == p
  {
    var p, q := root + "/ /", root + "/ ";
    BlankPlain(root);
    hide Location;
    assert p == q + "/";
    assert p[..2] == q[..2];
    assert StripLeft(p) == p && StripRight(p) == p;
  }

  lemma BlankSiblingPlace(root: string)
    requires IsNormal(root) && Location(root) != [] && |root| + 2 <= MAX_PATH_LEN
    ensures NormPath(root + "/ /") == root + "/ "
  {
    BlankPlain(root);
    assert root + "/ /" == root + "/ " + "/" + "";
    LocationUnder(root + "/ ", "");
    assert Split("") == [""];
    WalkOne(Location(root + "/ "), "");
  }

  lemma BlankKept(root: string)
    requires IsNormal(root) && !HasTraversal(root) && Location(root) != [] && |root| + 3 <= MAX_PATH_LEN
    ensures NormalizeHostNative(root + "/ /") == Ok(root + "/ ")
  {
    hide Normalize, Strip, HasTraversal, NoControl, Location, NormPath;
    BlankText(root);
    BlankSiblingPlace(root);
    BlankTraversal(root);
    NormalizeStripped(root + "/ /", root + "/ /");
  }

  lemma SiblingResolves(control: string, host: string, roots: seq<string>, raw: string, found: string, n: string)
    requires !UnderControl(control, raw) && NormalizeHostNative(raw) == Ok(found) && Under(found, roots) && found != ""
    requires ValidatePath(found).None? && ValidatePath(host).None? && Strip(host) != "" && Normalize(found) == Ok(n)
    ensures ResolveWorktree(control, host, roots, Some(raw)) == Ok(n)
  {
  }

  lemma BlankIsPath(root: string)
    requires IsNormal(root) && !HasTraversal(root) && Location(root) != [] && |root| + 2 <= MAX_PATH_LEN
    ensures ValidatePath(root + "/ ").None?
  {
    BlankPlain(root);
    BlankTraversal(root);
    hide HasTraversal, Location;
    PrefixAt("/", root + "/ ", 0);
  }

  lemma RootIsUnderNone(root: string, host: string)
    requires IsNormal(root) && !LooksLikeDrive(root) && Normalize(root) == Ok(root)
    requires Normalize(host).Ok? && Normalize(host).value != root && !IsStrictDescendant(root, Normalize(host).value)
    ensures !Passes(root, host, [root])
  {
    hide Normalize;
    DescendantAsText(root, root);
  }

  /**
   A sibling whose last name is a blank: it is trimmed away before it is stored, and what is left is the root itself.
   */
  lemma BlankSiblingDisagrees(control: string, host: string, root: string)
    requires IsNormal(root) && !EndsInSpace(root) && !LooksLikeDrive(root) && !HasTraversal(root)
    requires Location(root) != []
    requires !UnderControl(control, root + "/ /") && Normalize(host).Ok? && ValidatePath(host).None?
    requires |root| + 3 <= MAX_PATH_LEN
    requires Normalize(host).value != root && !IsStrictDescendant(root, Normalize(host).value)
    ensures ResolveWorktree(control, host, [root], Some(root + "/ /")) == Ok(root) && !Passes(root, host, [root])
  {
    assert Strip(host) != "";
    hide Normalize, IsStrictDescendant, HasTraversal, Location, Strip, UnderControl, ResolveWorktree, Passes, IsNormal;
    hide ValidatePath;
    BlankKept(root);
    BlankTrims(root);
    BlankPlain(root);
    BlankIsPath(root);
    ContainmentIsSegments(root + "/ ", root);
    assert Under(root + "/ ", [root]) by { assert IsStrictDescendant(root + "/ ", [root][0]); }
    SiblingResolves(control, host, [root], root + "/ /", root + "/ ", root);
    RootIsUnderNone(root, host);
  }

  // ---------------------------------------------------------------- what normalizing twice loses

  lemma HostNativeIsNormalize(path: string)
    requires NormalizeHostNative(path).Ok?
    ensures Normalize(path) == NormalizeHostNative(path)
  {
  }

  /** A blank last name survives one normalization and is lost in the next. */
  lemma BlankIsNormalizedTwice(root: string)
    requires IsNormal(root) && !HasTraversal(root) && Location(root) != [] && |root| + 3 <= MAX_PATH_LEN
    requires !EndsInSpace(root)
    ensures Normalize(root + "/ /") == Ok(root + "/ ") && Normalize(root + "/ ") == Ok(root) && root + "/ " != root
  {
    hide *;
    BlankKept(root);
    BlankTrims(root);
    HostNativeIsNormalize(root + "/ /");
    assert |root + "/ "| != |root|;
  }

  /** An allowlist with such a root is written, and the stored list is refused when it is read back. */
  lemma BlankRootIsNotReadBack(root: string, workspace: string)
    requires IsNormal(root) && !HasTraversal(root) && Location(root) != [] && |root| + 3 <= MAX_PATH_LEN
    requires !EndsInSpace(root) && ValidateRoot(root + "/ /", workspace) == Ok(root + "/ ")
    ensures RootList([root + "/ /"], workspace, true, 1) == Ok([root + "/ "])
    ensures RootList([root + "/ "], workspace, false, 1).Err?
  {
    hide ValidateRoot, Normalize, HasTraversal, IsNormal, Location;
    BlankTrims(root);
    var items := [root + "/ /"];
    assert RootList(items, workspace, true, 0) == Ok([]) && items[0] == root + "/ /";
    assert [] + [root + "/ "] == [root + "/ "];
    assert RootList(items, workspace, true, 1) == Ok([root + "/ "]);
    assert EndsInSpace(root + "/ ");
    RootListRoundTrip(items, workspace);
    ReadList([root + "/ "], workspace, 1);
    assert [root + "/ "][..1] == [root + "/ "];
  }

  lemma OneNameIsNormal()
    ensures IsNormal("/r") && Location("/r") == ["r"] && !EndsInSpace("/r") && !HasTraversal("/r")
    ensures |"/r"| + 3 <= MAX_PATH_LEN
  {
    assert Render(["r"]) == "/r";
    LocationOfRender(["r"]);
    NoTraversalOfOne("r");
    assert "/r" == "/" + "r";
  }

  lemma BlankRootValidates()
    ensures ValidateRoot("/r/ /", "/w") == Ok("/r/ ")
  {
    hide Normalize, NormalizeHostNative;
    OneNameIsNormal();
    assert "/r" + "/ /" == "/r/ /" && "/r" + "/ " == "/r/ ";
    BlankKept("/r");
    HiddenParentNormal();
    assert "/r/ "[..2][0] == '/' && "/w"[..2][0] == '/';
    assert RStrip("/r/ ", '/') == "/r/ ";
    assert FlavourOf("/r/ ") == Posix && FlavourOf("/w") == Posix;
  }

  /** Both on concrete paths. */
  lemma BlankRootOfWorkspace()
    ensures Normalize("/r/ /") == Ok("/r/ ") && Normalize("/r/ ") == Ok("/r")
    ensures RootList(["/r/ /"], "/w", true, 1) == Ok(["/r/ "]) && RootList(["/r/ "], "/w", false, 1).Err?
  {
    hide *;
    OneNameIsNormal();
    assert "/r" + "/ /" == "/r/ /" && "/r" + "/ " == "/r/ ";
    BlankRootValidates();
    BlankIsNormalizedTwice("/r");
    BlankRootIsNotReadBack("/r", "/w");
  }
}
