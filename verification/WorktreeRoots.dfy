/** Allowlisted worktree roots: validation, the stored list, and the two containment gates. */
module WorktreeRoots {
  import opened Text
  import opened Paths

  datatype RootError =
    | Bad(error: PathError)
    | FilesystemRoot
    | OtherFlavour
    | CoversWorkspace
    | NotCanonical
    | Duplicate
    | Outside

  // ---------------------------------------------------------------- validation

  function Slashes(s: string): (r: string)
    ensures |r| == |s| && forall i | 0 <= i < |s| :: r[i] == if s[i] == '\\' then '/' else s[i]
  {
    seq(|s|, i requires 0 <= i < |s| => if s[i] == '\\' then '/' else s[i])
  }

  predicate HasTraversal(path: string) {
    exists i :: 0 <= i < |Split(Slashes(path))| && Split(Slashes(path))[i] in {".", ".."}
  }

  /** `normalize_host_native_worktree_path`. */
  function NormalizeHostNative(path: string): Result<string, PathError> {
    if path == "" then Err(Required)
    else if !NoControl(path) then Err(ControlCharacter)
    else if HasTraversal(path) then Err(Traversal)
    else Normalize(path)
  }

  predicate IsFilesystemRoot(n: string) {
    n == "/" || (|n| == 3 && n[1] == ':' && n[2] == '\\')
  }

  function ValidateRoot(root: string, workspace: string): Result<string, RootError> {
    var n := NormalizeHostNative(root);
    if n.Err? then Err(Bad(n.error))
    else if IsFilesystemRoot(n.value) then Err(FilesystemRoot)
    else
      var w := Normalize(workspace);
      if w.Err? then Err(Bad(w.error))
      else if FlavourOf(n.value) != FlavourOf(w.value) then Err(OtherFlavour)
      else if n.value == w.value || IsStrictDescendant(w.value, n.value) then Err(CoversWorkspace)
      else Ok(n.value)
  }

  predicate Under(path: string, roots: seq<string>) {
    exists i :: 0 <= i < |roots| && IsStrictDescendant(path, roots[i])
  }

  method AnyRootContains(path: string, roots: seq<string>) returns (found: bool)
    ensures found == Under(path, roots)
  {
    for i := 0 to |roots|
      invariant !Under(path, roots[..i])
    {
      if IsStrictDescendant(path, roots[i]) {
        return true;
      }
      assert roots[..i + 1] == roots[..i] + [roots[i]];
    }
    assert roots[..|roots|] == roots;
    return false;
  }

  /** `resolve_allowlisted_worktree_path`, at submit. */
  function ResolveAllowlisted(path: string, roots: seq<string>): Result<string, RootError> {
    var n := NormalizeHostNative(path);
    if n.Err? then Err(Bad(n.error)) else if Under(n.value, roots) then Ok(n.value) else Err(Outside)
  }

  /** `check_worktree_containment_policy`, at claim. */
  function CheckContainment(path: string, workspace: string, roots: seq<string>): Result<string, RootError> {
    var n, w := Normalize(path), Normalize(workspace);
    if n.Err? then Err(Bad(n.error))
    else if w.Err? then Err(Bad(w.error))
    else if n.value == w.value || IsStrictDescendant(n.value, w.value) || Under(n.value, roots) then Ok(n.value)
    else Err(Outside)
  }

  // ---------------------------------------------------------------- the stored list

  /** The list built from the first `n` items. */
  function RootList(items: seq<string>, workspace: string, dedupe: bool, n: nat): Result<seq<string>, RootError>
    requires n <= |items|
  {
    if n == 0 then Ok([]) else
      match RootList(items, workspace, dedupe, n - 1)
      case Err(e) => Err(e)
      case Ok(out) =>
        var item := items[n - 1];
        match ValidateRoot(item, workspace)
        case Err(e) => Err(e)
        case Ok(root) =>
          if !dedupe && root != item then Err(NotCanonical)
          else if root in out then (if dedupe then Ok(out) else Err(Duplicate))
          else Ok(out + [root])
  }

  /** The one loop both the write path and the read path run. */
  method NormalizeRootList(items: seq<string>, workspace: string, dedupe: bool)
    returns (r: Result<seq<string>, RootError>)
    ensures r == RootList(items, workspace, dedupe, |items|)
  {
    hide ValidateRoot;
    var seen, out := {}, [];
    for n := 0 to |items|
      invariant RootList(items, workspace, dedupe, n) == Ok(out)
      invariant forall s :: s in seen <==> s in out
    {
      var root := ValidateRoot(items[n], workspace);
      if root.Err? {
        r := Err(root.error);
        StuckList(items, workspace, dedupe, n + 1, |items|);
        return;
      }
      if !dedupe && root.value != items[n] {
        r := Err(NotCanonical);
        StuckList(items, workspace, dedupe, n + 1, |items|);
        return;
      }
      if root.value in seen {
        if !dedupe {
          r := Err(Duplicate);
          StuckList(items, workspace, dedupe, n + 1, |items|);
          return;
        }
        continue;
      }
      seen := seen + {root.value};
      out := out + [root.value];
    }
    return Ok(out);
  }

  lemma {:induction false} StuckList(items: seq<string>, workspace: string, dedupe: bool, m: nat, n: nat)
    requires m <= n <= |items| && RootList(items, workspace, dedupe, m).Err?
    ensures RootList(items, workspace, dedupe, n) == RootList(items, workspace, dedupe, m)
  {
    hide ValidateRoot;
    if m < n {
      StuckList(items, workspace, dedupe, m, n - 1);
    }
  }

  /** A list without its later repetitions. */
  function FirstOccurrences(s: seq<string>): (r: seq<string>)
    ensures forall x :: x in r <==> x in s
    ensures forall i, j | 0 <= i < j < |r| :: r[i] != r[j]
  {
    if s == [] then [] else
      var init, last := s[..|s| - 1], s[|s| - 1];
      assert s == init + [last];
      if last in init then FirstOccurrences(init) else FirstOccurrences(init) + [last]
  }

  function Roots(items: seq<string>, workspace: string): seq<string>
    requires forall i | 0 <= i < |items| :: ValidateRoot(items[i], workspace).Ok?
  {
    seq(|items|, i requires 0 <= i < |items| => ValidateRoot(items[i], workspace).value)
  }

  predicate AllValid(items: seq<string>, workspace: string) {
    forall i | 0 <= i < |items| :: ValidateRoot(items[i], workspace).Ok?
  }

  /** A written list is the first occurrences, in order, of the normal forms of its items; one invalid item fails it. */
  lemma {:induction false} WrittenList(items: seq<string>, workspace: string, n: nat)
    requires n <= |items|
    ensures RootList(items, workspace, true, n).Ok? <==> AllValid(items[..n], workspace)
    ensures AllValid(items[..n], workspace) ==>
              RootList(items, workspace, true, n) == Ok(FirstOccurrences(Roots(items[..n], workspace)))
  {
    hide ValidateRoot;
    if n > 0 {
      WrittenList(items, workspace, n - 1);
      assert items[..n] == items[..n - 1] + [items[n - 1]];
      ValidGrows(items[..n - 1], items[n - 1], workspace);
    }
  }

  lemma ValidGrows(init: seq<string>, last: string, workspace: string)
    ensures AllValid(init + [last], workspace) <==> AllValid(init, workspace) && ValidateRoot(last, workspace).Ok?
    ensures AllValid(init + [last], workspace) ==>
              Roots(init + [last], workspace) == Roots(init, workspace) + [ValidateRoot(last, workspace).value]
  {
    hide ValidateRoot;
    var all := init + [last];
    assert all[|init|] == last && forall i | 0 <= i < |init| :: all[i] == init[i];
  }

  predicate Distinct(s: seq<string>) {
    forall i, j | 0 <= i < j < |s| :: s[i] != s[j]
  }

  predicate AllCanonical(items: seq<string>, workspace: string) {
    forall i | 0 <= i < |items| :: ValidateRoot(items[i], workspace) == Ok(items[i])
  }

  /** A read accepts exactly a list of distinct roots, each its own normal form, and returns it unchanged. */
  lemma {:induction false} ReadList(items: seq<string>, workspace: string, n: nat)
    requires n <= |items|
    ensures RootList(items, workspace, false, n) == Ok(items[..n]) <==>
              AllCanonical(items[..n], workspace) && Distinct(items[..n])
    ensures RootList(items, workspace, false, n).Ok? ==> RootList(items, workspace, false, n) == Ok(items[..n])
  {
    hide ValidateRoot;
    if n > 0 {
      ReadList(items, workspace, n - 1);
      var init, last := items[..n - 1], items[n - 1];
      assert items[..n] == init + [last];
      CanonicalGrows(init, last, workspace);
    }
  }

  lemma CanonicalGrows(init: seq<string>, last: string, workspace: string)
    ensures AllCanonical(init + [last], workspace) <==>
              AllCanonical(init, workspace) && ValidateRoot(last, workspace) == Ok(last)
    ensures Distinct(init + [last]) <==> Distinct(init) && last !in init
  {
    hide ValidateRoot;
    var all := init + [last];
    assert all[|init|] == last && forall i | 0 <= i < |init| :: all[i] == init[i];
  }

  // ---------------------------------------------------------------- what a validated root is

  /** A validated root is normal, and neither the workspace nor above it. */
  lemma ValidatedRoot(raw: string, workspace: string)
    requires ValidateRoot(raw, workspace).Ok?
    ensures var n := ValidateRoot(raw, workspace).value;
            && Normalize(raw) == Ok(n) && IsNormal(n) && Normalize(workspace).Ok?
            && IsNormal(Normalize(workspace).value)
            && n != Normalize(workspace).value && !IsStrictDescendant(Normalize(workspace).value, n)
  {
    NormalizeKeepsLocation(raw);
    NormalizeKeepsLocation(workspace);
  }

  /** A normal form validates to itself exactly if it does not end in whitespace and reads as no traversal. */
  lemma RootReadsBack(raw: string, workspace: string)
    requires ValidateRoot(raw, workspace).Ok?
    ensures var n := ValidateRoot(raw, workspace).value;
            ValidateRoot(n, workspace) == Ok(n) <==> !EndsInSpace(n) && !HasTraversal(n)
  {
    hide HasTraversal, IsStrictDescendant, Normalize, FlavourOf, Location;
    ValidatedRoot(raw, workspace);
    var n := ValidateRoot(raw, workspace).value;
    NormalizeIsIdempotent(raw);
    RenderIsClean(Location(n));
  }

  /**
   What was written reads back unchanged exactly if no stored root ends in whitespace or, read with backslashes,
   traverses.
   */
  lemma RootListRoundTrip(items: seq<string>, workspace: string)
    requires RootList(items, workspace, true, |items|).Ok?
    ensures var out := RootList(items, workspace, true, |items|).value;
            && Distinct(out)
            && (forall x :: x in out <==> exists i :: 0 <= i < |items| && ValidateRoot(items[i], workspace) == Ok(x))
            && (RootList(out, workspace, false, |out|) == Ok(out) <==>
                  forall i | 0 <= i < |out| :: !EndsInSpace(out[i]) && !HasTraversal(out[i]))
  {
    hide ValidateRoot, HasTraversal, EndsInSpace;
    WrittenList(items, workspace, |items|);
    assert items[..|items|] == items;
    var out := RootList(items, workspace, true, |items|).value;
    var roots := Roots(items, workspace);
    forall x ensures x in out <==> exists i :: 0 <= i < |items| && ValidateRoot(items[i], workspace) == Ok(x) {
      assert x in out <==> x in roots;
      if i :| 0 <= i < |items| && ValidateRoot(items[i], workspace) == Ok(x) {
        assert roots[i] == x;
      }
    }
    ReadList(out, workspace, |out|);
    assert out[..|out|] == out;
    forall i | 0 <= i < |out|
      ensures ValidateRoot(out[i], workspace) == Ok(out[i]) <==> !EndsInSpace(out[i]) && !HasTraversal(out[i])
    {
      assert out[i] in out;
      var k :| 0 <= k < |items| && ValidateRoot(items[k], workspace) == Ok(out[i]);
      RootReadsBack(items[k], workspace);
    }
  }

  // ---------------------------------------------------------------- what the submit gate lets through

  lemma {:induction false} JoinGrows(a: seq<string>, b: seq<string>)
    requires a <= b
    ensures Join(a) <= Join(b)
  {
    if a == [] {
    } else if |a| == 1 {
      assert a[0] == b[0];
    } else {
      assert a[0] == b[0] && a[1..] <= b[1..] by {
        assert a == b[..|a|];
        assert a[1..] == b[1..][..|a| - 1];
      }
      JoinGrows(a[1..], b[1..]);
      PrefixUnderStem(a[0] + "/", Join(a[1..]), Join(b[1..]));
      assert Join(a) == (a[0] + "/") + Join(a[1..]) && Join(b) == (a[0] + "/") + Join(b[1..]);
    }
  }

  /** No path accepted against validated roots is the canonical workspace or an ancestor of it. */
  lemma AcceptedIsNotAbove(path: string, roots: seq<string>, workspace: string, raws: seq<string>)
    requires |raws| == |roots| && forall i | 0 <= i < |roots| :: ValidateRoot(raws[i], workspace) == Ok(roots[i])
    requires ResolveAllowlisted(path, roots).Ok?
    ensures var n := ResolveAllowlisted(path, roots).value;
            Normalize(workspace).Ok? && IsNormal(n) && !(Location(n) <= Location(Normalize(workspace).value))
  {
    var n := ResolveAllowlisted(path, roots).value;
    NormalizeKeepsLocation(path);
    var i :| 0 <= i < |roots| && IsStrictDescendant(n, roots[i]);
    ValidatedRoot(raws[i], workspace);
    var w := Normalize(workspace).value;
    if Location(n) <= Location(w) {
      JoinGrows(Location(n), Location(w));
      PrefixUnderStem("/", Join(Location(n)), Join(Location(w)));
      assert n <= w;
      DescendantsOfPrefix(n, w, roots[i]);
    }
  }

  lemma DescendantsOfPrefix(n: string, w: string, root: string)
    requires n <= w && IsStrictDescendant(n, root)
    ensures w == root || IsStrictDescendant(w, root)
  {
  }
}
