/** Tolerant parsing: layers are pruned, one subtree at a time, until the schema accepts their merge. */
module TolerantParse {
  import opened Wrappers
  import opened JsonValues
  import opened Sorting
  import opened ConfigMerge
  import opened ConfigTrees

  // ----- issues and the paths they name

  /** A path with a symbol in it is absent; keys or union branches that are absent count as none. */
  datatype Issue = Issue(path: Option<Path>, code: string, keys: seq<string>, errors: seq<Branch>)

  datatype Branch = Branch(issues: seq<Issue>)

  /** What the schema makes of a value: any function of it. */
  datatype Outcome = Accepted(data: Option<Json>) | Rejected(issues: seq<Issue>)

  predicate HasRootIssue(issues: seq<Issue>) { exists i :: 0 <= i < |issues| && issues[i].path == Some([]) }

  function IssuePaths(issue: Issue, prefix: Path): seq<Path>
    decreases issue
  {
    if issue.path.None? || issue.code == "unrecognized_keys" then []
    else
      var fullPath := prefix + issue.path.value;
      var nested := if issue.code == "invalid_union" then BranchPaths(issue.errors, fullPath) else [];
      if nested != [] then nested else [fullPath]
  }

  function AllIssuePaths(issues: seq<Issue>, prefix: Path): seq<Path>
    decreases issues
  {
    if issues == [] then [] else IssuePaths(issues[0], prefix) + AllIssuePaths(issues[1..], prefix)
  }

  function BranchPaths(branches: seq<Branch>, prefix: Path): seq<Path>
    decreases branches
  {
    if branches == [] then [] else AllIssuePaths(branches[0].issues, prefix) + BranchPaths(branches[1..], prefix)
  }

  predicate OnlyUnknown(issue: Issue)
    decreases issue
  {
    || issue.code == "unrecognized_keys"
    || (issue.code == "invalid_union" && exists b :: 0 <= b < |issue.errors| && Viable(issue.errors[b]))
  }

  /** A branch whose only fault is keys it does not know. */
  predicate Viable(branch: Branch)
    decreases branch
  {
    branch.issues != [] && forall i :: 0 <= i < |branch.issues| ==> OnlyUnknown(branch.issues[i])
  }

  /** The paths of the keys the schema does not know. */
  function UnknownPaths(issues: seq<Issue>, prefix: Path): seq<Path>
    decreases issues
  {
    if issues == [] then []
    else
      var issue, rest := issues[0], UnknownPaths(issues[1..], prefix);
      if issue.path.None? then rest
      else
        var fullPath := prefix + issue.path.value;
        if issue.code == "unrecognized_keys" then
          seq(|issue.keys|, i requires 0 <= i < |issue.keys| => fullPath + [Name(issue.keys[i])]) + rest
        else if issue.code == "invalid_union" then ViablePaths(issue.errors, fullPath) + rest
        else rest
  }

  /** Those of the first viable branch. */
  function ViablePaths(branches: seq<Branch>, prefix: Path): seq<Path>
    decreases branches
  {
    if branches == [] then []
    else if Viable(branches[0]) then UnknownPaths(branches[0].issues, prefix)
    else ViablePaths(branches[1..], prefix)
  }

  /** Every named path goes on from where the issue was found. */
  lemma {:induction false} IssuePathsExtend(issue: Issue, prefix: Path)
    ensures forall p :: p in IssuePaths(issue, prefix) ==> prefix <= p
    decreases issue
  {
    if issue.path.Some? {
      var fullPath := prefix + issue.path.value;
      BranchPathsExtend(issue.errors, fullPath);
      forall p | p in BranchPaths(issue.errors, fullPath) ensures prefix <= p { assert prefix <= fullPath <= p; }
    }
  }

  lemma {:induction false} AllIssuePathsExtend(issues: seq<Issue>, prefix: Path)
    ensures forall p :: p in AllIssuePaths(issues, prefix) ==> prefix <= p
    decreases issues
  {
    if issues != [] {
      IssuePathsExtend(issues[0], prefix);
      AllIssuePathsExtend(issues[1..], prefix);
    }
  }

  lemma {:induction false} BranchPathsExtend(branches: seq<Branch>, prefix: Path)
    ensures forall p :: p in BranchPaths(branches, prefix) ==> prefix <= p
    decreases branches
  {
    if branches != [] {
      AllIssuePathsExtend(branches[0].issues, prefix);
      BranchPathsExtend(branches[1..], prefix);
    }
  }

  /** A path that ends in a name, below where it was found. */
  predicate NamesKey(prefix: Path, p: Path) { prefix <= p && |p| > |prefix| && p[|p| - 1].Name? }

  /** An unknown key is always a name inside what the issue is about, never that itself. */
  lemma {:induction false} UnknownPathsNameKeys(issues: seq<Issue>, prefix: Path)
    ensures forall p :: p in UnknownPaths(issues, prefix) ==> NamesKey(prefix, p)
    decreases issues
  {
    if issues != [] {
      UnknownPathsNameKeys(issues[1..], prefix);
      if issues[0].path.Some? {
        var fullPath := prefix + issues[0].path.value;
        ViablePathsNameKeys(issues[0].errors, fullPath);
        forall p | NamesKey(fullPath, p) ensures NamesKey(prefix, p) { assert prefix <= fullPath <= p; }
      }
    }
  }

  lemma {:induction false} ViablePathsNameKeys(branches: seq<Branch>, prefix: Path)
    ensures forall p :: p in ViablePaths(branches, prefix) ==> NamesKey(prefix, p)
    decreases branches
  {
    if branches != [] {
      UnknownPathsNameKeys(branches[0].issues, prefix);
      ViablePathsNameKeys(branches[1..], prefix);
    }
  }

  // ----- which subtree is discarded

  type Trees = seq<Option<Tree>>

  datatype Hit = Hit(path: Path, layer: nat)

  predicate LongerFirst(a: Path, b: Path) { |a| >= |b| }

  predicate NoTargetAt(trees: Trees, path: Path) { forall l :: 0 <= l < |trees| ==> !HasTarget(trees[l], path) }

  predicate NoTarget(trees: Trees, paths: seq<Path>) { forall i :: 0 <= i < |paths| ==> NoTargetAt(trees, paths[i]) }

  /** The highest layer that has something there. */
  predicate Highest(trees: Trees, path: Path, layer: nat)
  {
    layer < |trees| && HasTarget(trees[layer], path) && forall l :: layer < l < |trees| ==> !HasTarget(trees[l], path)
  }

  /** The first path in this order that leads to something, in the highest layer where it does. */
  ghost predicate FirstHit(trees: Trees, sorted: seq<Path>, hit: Hit)
  {
    exists i :: 0 <= i < |sorted| && sorted[i] == hit.path && Highest(trees, hit.path, hit.layer)
        && NoTarget(trees, sorted[..i])
  }

  /** No path that leads to something is longer. */
  ghost predicate Deepest(trees: Trees, paths: seq<Path>, hit: Hit)
  {
    && hit.path in paths && Highest(trees, hit.path, hit.layer)
    && forall p :: p in paths && |p| > |hit.path| ==> NoTargetAt(trees, p)
  }

  /** A path's own ancestors, its root left out. */
  predicate IsParent(parent: Path, path: Path) { 0 < |parent| < |path| && parent <= path }

  /** A longest ancestor that leads to something, and of those one in the highest layer. */
  ghost predicate DeepestParent(trees: Trees, paths: seq<Path>, hit: Hit)
  {
    && (exists p :: p in paths && IsParent(hit.path, p))
    && hit.layer < |trees| && HasTarget(trees[hit.layer], hit.path)
    && forall p, q, l :: p in paths && IsParent(q, p) && 0 <= l < |trees| && HasTarget(trees[l], q) ==>
        AtMost(q, l, hit)
  }

  /** Of those, the one found first: no earlier path has an ancestor as long that leads to something in that layer. */
  ghost predicate FirstAncestor(trees: Trees, paths: seq<Path>, hit: Hit)
  {
    DeepestParent(trees, paths, hit) && exists a :: 0 <= a < |paths| && FoundFirst(trees, paths, a, hit)
  }

  ghost predicate FoundFirst(trees: Trees, paths: seq<Path>, a: int, hit: Hit)
    requires 0 <= a < |paths|
  {
    && IsParent(hit.path, paths[a]) && Leads(trees, hit)
    && forall j, q :: 0 <= j < a && IsParent(q, paths[j]) && |q| == |hit.path| ==> !HasTarget(trees[hit.layer], q)
  }

  predicate Leads(trees: Trees, hit: Hit) { hit.layer < |trees| && HasTarget(trees[hit.layer], hit.path) }

  predicate AtMost(path: Path, layer: nat, hit: Hit) {
    |path| < |hit.path| || (|path| == |hit.path| && layer <= hit.layer)
  }

  ghost predicate NoParent(trees: Trees, paths: seq<Path>)
  {
    forall p, q :: p in paths && IsParent(q, p) ==> NoTargetAt(trees, q)
  }

  /** Sorting makes the first hit a deepest one. */
  lemma FirstHitIsDeepest(trees: Trees, paths: seq<Path>, hit: Hit)
    requires FirstHit(trees, Sort(paths, LongerFirst), hit)
    ensures Deepest(trees, paths, hit)
  {
    hide NoTargetAt, Highest, HasTarget, Sort;
    SortSorts(paths, LongerFirst);
    var sorted := Sort(paths, LongerFirst);
    var i :| 0 <= i < |sorted| && sorted[i] == hit.path && NoTarget(trees, sorted[..i]);
    SortMembers(paths, LongerFirst);
    forall p | p in paths && |p| > |hit.path| ensures NoTargetAt(trees, p) {
      var j :| 0 <= j < |sorted| && sorted[j] == p;
      assert j > i ==> LongerFirst(sorted[i], sorted[j]);
      assert sorted[..i][j] == p;
    }
  }

  lemma SortedHasNoTarget(trees: Trees, paths: seq<Path>)
    ensures NoTarget(trees, Sort(paths, LongerFirst)) <==> NoTarget(trees, paths)
  {
    hide NoTargetAt, Sort;
    var sorted := Sort(paths, LongerFirst);
    SortMembers(paths, LongerFirst);
    if NoTarget(trees, sorted) {
      forall i | 0 <= i < |paths| ensures NoTargetAt(trees, paths[i]) { assert paths[i] in sorted; }
    }
    if NoTarget(trees, paths) {
      forall i | 0 <= i < |sorted| ensures NoTargetAt(trees, sorted[i]) { assert sorted[i] in paths; }
    }
  }

  /** The trees after a discard. */
  function After(trees: Trees, hit: Hit): Trees
    requires hit.layer < |trees| && HasTarget(trees[hit.layer], hit.path)
  {
    trees[hit.layer := Some(Discarded(trees[hit.layer].value, hit.path))]
  }

  method DiscardAtPath(values: array<Option<Tree>>, index: nat, path: Path) returns (done: bool)
    requires index < values.Length
    modifies values
    ensures done == HasTarget(old(values[index]), path)
    ensures values[..] == if done then After(old(values[..]), Hit(path, index)) else old(values[..])
  {
    hide Node, Discarded;
    var parent := ParentAtPath(values[index], path);
    if parent.None? { return false; }
    values[index] := Some(Discarded(values[index].value, path));
    return true;
  }

  /** The first path in order, in its highest layer. */
  method DiscardFirst(values: array<Option<Tree>>, paths: seq<Path>) returns (hit: Option<Hit>, reportedPath: Path)
    modifies values
    ensures hit.None? ==> NoTarget(old(values[..]), paths) && values[..] == old(values[..])
    ensures hit.Some? ==> FirstHit(old(values[..]), paths, hit.value) && values[..] == After(old(values[..]), hit.value)
    ensures hit.Some? ==> reportedPath == OriginalPath(old(values[..])[hit.value.layer], hit.value.path)
  {
    hide HasTarget, Discarded, OriginalPath;
    hit, reportedPath := None, [];
    for i := 0 to |paths|
      invariant values[..] == old(values[..]) && NoTarget(values[..], paths[..i])
    {
      for index := values.Length downto 0
        invariant values[..] == old(values[..])
        invariant forall l :: index <= l < values.Length ==> !HasTarget(values[..][l], paths[i])
      {
        reportedPath := OriginalPathAtValue(values[index], paths[i]);
        var done := DiscardAtPath(values, index, paths[i]);
        if done {
          assert Highest(old(values[..]), paths[i], index);
          hit := Some(Hit(paths[i], index));
          return;
        }
      }
      assert paths[..i + 1] == paths[..i] + [paths[i]];
    }
    assert paths[..|paths|] == paths;
  }

  // ----- the fallback

  /** The second fallback is the first, or one that is deeper, or as deep and in a higher layer. */
  predicate NoWorse(before: Option<Hit>, after: Option<Hit>)
  {
    || after == before
    || (&& after.Some?
        && (|| before.None? || |after.value.path| > |before.value.path|
            || (|after.value.path| == |before.value.path| && after.value.layer > before.value.layer)))
  }

  /** No layer has something at the path that would be a better fallback. */
  predicate Covers(trees: Trees, path: Path, fallback: Option<Hit>)
  {
    forall l :: 0 <= l < |trees| && HasTarget(trees[l], path) ==> fallback.Some? && AtMost(path, l, fallback.value)
  }

  method ConsiderLayers(values: array<Option<Tree>>, parentPath: Path, before: Option<Hit>)
    returns (fallback: Option<Hit>)
    ensures Covers(values[..], parentPath, fallback) && NoWorse(before, fallback)
    ensures fallback == before
            || (fallback.Some? && fallback.value.path == parentPath && Leads(values[..], fallback.value))
  {
    hide Node;
    fallback := before;
    for index := values.Length downto 0
      invariant NoWorse(before, fallback)
      invariant forall l :: index <= l < values.Length && HasTarget(values[..][l], parentPath) ==>
                  fallback.Some? && AtMost(parentPath, l, fallback.value)
      invariant fallback == before
                || (fallback.Some? && fallback.value.path == parentPath && Leads(values[..], fallback.value))
    {
      var parent := ParentAtPath(values[index], parentPath);
      if parent.Some? && (fallback.None? || |parentPath| > |fallback.value.path|
                          || (|parentPath| == |fallback.value.path| && index > fallback.value.layer)) {
        fallback := Some(Hit(parentPath, index));
      }
    }
  }

  lemma CoversStill(trees: Trees, path: Path, before: Option<Hit>, after: Option<Hit>)
    requires Covers(trees, path, before) && NoWorse(before, after)
    ensures Covers(trees, path, after)
  {
    hide HasTarget;
  }

  lemma NoWorseTransitive(a: Option<Hit>, b: Option<Hit>, c: Option<Hit>)
    requires NoWorse(a, b) && NoWorse(b, c)
    ensures NoWorse(a, c)
  {
  }

  method ConsiderParents(values: array<Option<Tree>>, path: Path, before: Option<Hit>) returns (fallback: Option<Hit>)
    ensures (forall q :: IsParent(q, path) ==> Covers(values[..], q, fallback)) && NoWorse(before, fallback)
    ensures fallback == before
            || (fallback.Some? && IsParent(fallback.value.path, path) && Leads(values[..], fallback.value))
  {
    hide Covers, NoWorse, Leads;
    fallback := before;
    assert NoWorse(before, fallback) by { NoWorseItself(before); }
    if path == [] { return; }
    for length := |path| downto 1
      invariant forall n :: length <= n < |path| ==> Covers(values[..], path[..n], fallback)
      invariant NoWorse(before, fallback)
      invariant fallback == before
                || (fallback.Some? && IsParent(fallback.value.path, path) && Leads(values[..], fallback.value))
    {
      var was := fallback;
      fallback := ConsiderLayers(values, path[..length], was);
      NoWorseTransitive(before, was, fallback);
      forall n | length < n < |path|
        ensures Covers(values[..], path[..n], fallback) { CoversStill(values[..], path[..n], was, fallback); }
    }
    forall q | IsParent(q, path) ensures Covers(values[..], q, fallback) { assert q == path[..|q|]; }
  }

  lemma NoWorseItself(a: Option<Hit>)
    ensures NoWorse(a, a)
  {
  }

  /** The deepest ancestor that still leads to something, in the highest layer where one does, found first. */
  method FindParent(values: array<Option<Tree>>, paths: seq<Path>) returns (fallback: Option<Hit>)
    ensures fallback.None? ==> NoParent(values[..], paths)
    ensures fallback.Some? ==> FirstAncestor(values[..], paths, fallback.value)
  {
    hide NoWorse, HasTarget, IsParent, AtMost, FoundFirst;
    fallback := None;
    ghost var at := 0;
    for i := 0 to |paths|
      invariant forall j, q :: 0 <= j < i && IsParent(q, paths[j]) ==> Covers(values[..], q, fallback)
      invariant fallback.Some? ==> 0 <= at < i && FoundFirst(values[..], paths, at, fallback.value)
    {
      var was := fallback;
      fallback := ConsiderParents(values, paths[i], was);
      forall j, q | 0 <= j < i && IsParent(q, paths[j]) ensures Covers(values[..], q, fallback) {
        CoversStill(values[..], q, was, fallback);
      }
      if fallback != was {
        BetterIsFirst(values[..], paths, i, was, fallback.value);
        at := i;
      }
    }
    forall p, q | p in paths && IsParent(q, p) ensures Covers(values[..], q, fallback) {
      var j :| 0 <= j < |paths| && paths[j] == p;
    }
    if fallback.Some? { FirstIsAncestor(values[..], paths, at, fallback.value); }
  }

  /** A better fallback than one that covers all earlier paths has no equal among their ancestors. */
  lemma BetterIsFirst(trees: Trees, paths: seq<Path>, i: nat, was: Option<Hit>, hit: Hit)
    requires i < |paths| && IsParent(hit.path, paths[i]) && Leads(trees, hit)
    requires forall j, q :: 0 <= j < i && IsParent(q, paths[j]) ==> Covers(trees, q, was)
    requires NoWorse(was, Some(hit)) && was != Some(hit)
    ensures FoundFirst(trees, paths, i, hit)
  {
    hide HasTarget, IsParent;
    forall j, q | 0 <= j < i && IsParent(q, paths[j]) && |q| == |hit.path| ensures !HasTarget(trees[hit.layer], q) {
      assert Covers(trees, q, was);
    }
  }

  lemma FirstIsAncestor(trees: Trees, paths: seq<Path>, a: int, hit: Hit)
    requires 0 <= a < |paths| && FoundFirst(trees, paths, a, hit)
    requires forall p, q :: p in paths && IsParent(q, p) ==> Covers(trees, q, Some(hit))
    ensures FirstAncestor(trees, paths, hit)
  {
    hide HasTarget, IsParent, AtMost;
    assert paths[a] in paths;
  }

  // ----- one round

  datatype Removed = Removed(path: Path, layer: Option<nat>)

  predicate IsUnsafePath(path: Path) { exists i :: 0 <= i < |path| && path[i].Name? && IsUnsafeKey(path[i].s) }

  /** Nothing that the issues name, and nothing on the way there, is left. */
  ghost predicate Stuck(trees: Trees, issues: seq<Issue>)
  {
    && NoTarget(trees, UnknownPaths(issues, []))
    && NoTarget(trees, AllIssuePaths(issues, []))
    && NoParent(trees, AllIssuePaths(issues, []))
  }

  /** Unknown keys first, then what the issues name, then an ancestor: always the first in order of length. */
  ghost predicate Chosen(trees: Trees, issues: seq<Issue>, hit: Hit)
  {
    var unknown, named := UnknownPaths(issues, []), AllIssuePaths(issues, []);
    if !NoTarget(trees, unknown) then FirstHit(trees, Sort(unknown, LongerFirst), hit)
    else if !NoTarget(trees, named) then FirstHit(trees, Sort(named, LongerFirst), hit)
    else FirstAncestor(trees, Sort(named, LongerFirst), hit)
  }

  /** What is chosen is a deepest one. */
  lemma ChosenIsDeepest(trees: Trees, issues: seq<Issue>, hit: Hit)
    requires Chosen(trees, issues, hit)
    ensures var unknown, named := UnknownPaths(issues, []), AllIssuePaths(issues, []);
            if !NoTarget(trees, unknown) then Deepest(trees, unknown, hit)
            else if !NoTarget(trees, named) then Deepest(trees, named, hit)
            else DeepestParent(trees, named, hit)
  {
    hide NoTarget, FirstHit, Deepest, Sort, LongerFirst, HasTarget, IsParent, AtMost, UnknownPaths, AllIssuePaths;
    var unknown, named := UnknownPaths(issues, []), AllIssuePaths(issues, []);
    if !NoTarget(trees, unknown) {
      FirstHitIsDeepest(trees, unknown, hit);
    } else if !NoTarget(trees, named) {
      FirstHitIsDeepest(trees, named, hit);
    } else {
      LongerIsAnOrder();
      SortMembers(named, LongerFirst);
    }
  }

  lemma LongerIsAnOrder()
    ensures TotalPreorder(LongerFirst)
  {
  }

  lemma OneFirstHit(trees: Trees, sorted: seq<Path>, a: Hit, b: Hit)
    requires FirstHit(trees, sorted, a) && FirstHit(trees, sorted, b)
    ensures a == b
  {
    hide HasTarget;
    var i :| 0 <= i < |sorted| && sorted[i] == a.path && Highest(trees, a.path, a.layer)
        && NoTarget(trees, sorted[..i]);
    var j :| 0 <= j < |sorted| && sorted[j] == b.path && Highest(trees, b.path, b.layer)
        && NoTarget(trees, sorted[..j]);
    if i < j { NoTargetBefore(trees, sorted, i, j); }
    if j < i { NoTargetBefore(trees, sorted, j, i); }
  }

  lemma NoTargetBefore(trees: Trees, paths: seq<Path>, i: int, j: int)
    requires 0 <= i < j <= |paths| && NoTarget(trees, paths[..j])
    ensures NoTargetAt(trees, paths[i])
  {
    assert paths[..j][i] == paths[i];
  }

  lemma OneFirstAncestor(trees: Trees, paths: seq<Path>, a: Hit, b: Hit)
    requires FirstAncestor(trees, paths, a) && FirstAncestor(trees, paths, b)
    ensures a == b
  {
    hide HasTarget;
    var i :| 0 <= i < |paths| && FoundFirst(trees, paths, i, a);
    var j :| 0 <= j < |paths| && FoundFirst(trees, paths, j, b);
    assert paths[i] in paths && paths[j] in paths;
    assert AtMost(a.path, a.layer, b) && AtMost(b.path, b.layer, a);
    assert a.path == paths[i][..|a.path|] && b.path == paths[j][..|b.path|];
  }

  /** Nothing is left to choice. */
  lemma ChosenIsOne(trees: Trees, issues: seq<Issue>, a: Hit, b: Hit)
    requires Chosen(trees, issues, a) && Chosen(trees, issues, b)
    ensures a == b
  {
    hide NoTarget, FirstHit, FirstAncestor, Sort, LongerFirst, UnknownPaths, AllIssuePaths;
    var unknown, named := UnknownPaths(issues, []), AllIssuePaths(issues, []);
    if !NoTarget(trees, unknown) {
      OneFirstHit(trees, Sort(unknown, LongerFirst), a, b);
    } else if !NoTarget(trees, named) {
      OneFirstHit(trees, Sort(named, LongerFirst), a, b);
    } else {
      OneFirstAncestor(trees, Sort(named, LongerFirst), a, b);
    }
  }

  /** What a discard reports: an unknown key by its original path, unless its name is unsafe. */
  function Report(trees: Trees, issues: seq<Issue>, hit: Hit, includeLayer: bool): seq<Removed>
    requires hit.layer < |trees|
  {
    if NoTarget(trees, UnknownPaths(issues, [])) || IsUnsafePath(hit.path) then []
    else [Removed(OriginalPath(trees[hit.layer], hit.path), if includeLayer then Some(hit.layer) else None)]
  }

  method DiscardIssues(values: array<Option<Tree>>, issues: seq<Issue>, unknownKeys: seq<Removed>, includeLayer: bool)
    returns (hit: Option<Hit>, keys: seq<Removed>)
    modifies values
    ensures hit.None? <==> Stuck(old(values[..]), issues)
    ensures hit.None? ==> values[..] == old(values[..]) && keys == unknownKeys
    ensures hit.Some? ==> Leads(old(values[..]), hit.value) && Chosen(old(values[..]), issues, hit.value)
    ensures hit.Some? ==> values[..] == After(old(values[..]), hit.value)
    ensures hit.Some? ==> keys == unknownKeys + Report(old(values[..]), issues, hit.value, includeLayer)
  {
    hide HasTarget, Node, Discarded, UnknownPaths, AllIssuePaths, Sort, LongerFirst, IsUnsafePath, OriginalPath,
         FoundFirst, AtMost, IsParent;
    ghost var trees := values[..];
    var unknown, named := UnknownPaths(issues, []), AllIssuePaths(issues, []);
    SortedHasNoTarget(trees, unknown);
    SortedHasNoTarget(trees, named);
    SortedHasNoParent(trees, named);
    keys := unknownKeys;
    var reportedPath;
    hit, reportedPath := DiscardFirst(values, Sort(unknown, LongerFirst));
    if hit.Some? {
      HitLeads(trees, Sort(unknown, LongerFirst), hit.value);
      if !IsUnsafePath(hit.value.path) {
        keys := keys + [Removed(reportedPath, if includeLayer then Some(hit.value.layer) else None)];
      }
      return;
    }
    var sorted := Sort(named, LongerFirst);
    hit, reportedPath := DiscardFirst(values, sorted);
    if hit.Some? {
      HitLeads(trees, sorted, hit.value);
      return;
    }
    hit := FindParent(values, sorted);
    if hit.Some? {
      ParentLeads(trees, sorted, hit.value);
      var done := DiscardAtPath(values, hit.value.layer, hit.value.path);
    }
  }

  lemma SortedHasNoParent(trees: Trees, paths: seq<Path>)
    ensures NoParent(trees, Sort(paths, LongerFirst)) <==> NoParent(trees, paths)
  {
    hide NoTargetAt, IsParent, Sort, LongerFirst;
    LongerIsAnOrder();
    SortMembers(paths, LongerFirst);
  }

  lemma HitLeads(trees: Trees, sorted: seq<Path>, hit: Hit)
    requires FirstHit(trees, sorted, hit)
    ensures Leads(trees, hit) && !NoTarget(trees, sorted)
  {
    hide HasTarget;
  }

  lemma ParentLeads(trees: Trees, paths: seq<Path>, hit: Hit)
    requires DeepestParent(trees, paths, hit)
    ensures Leads(trees, hit) && !NoParent(trees, paths)
  {
    hide HasTarget;
  }

  /** A cleared layer, or an object without members. */
  predicate IsEmptyLayer(t: Option<Tree>) { t.None? || (t.value.Record? && t.value.fields == map[]) }

  predicate HighestFilled(trees: Trees, k: nat)
  {
    k < |trees| && !IsEmptyLayer(trees[k]) && forall l :: k < l < |trees| ==> IsEmptyLayer(trees[l])
  }

  method ClearHighestPriorityLayer(values: array<Option<Tree>>) returns (cleared: Option<nat>)
    modifies values
    ensures cleared.None? ==>
              values[..] == old(values[..]) && forall l :: 0 <= l < values.Length ==> IsEmptyLayer(old(values[..])[l])
    ensures cleared.Some? ==>
              HighestFilled(old(values[..]), cleared.value) && values[..] == old(values[..])[cleared.value := None]
  {
    for index := values.Length downto 0
      invariant values[..] == old(values[..])
      invariant forall l :: index <= l < values.Length ==> IsEmptyLayer(values[..][l])
    {
      if !IsEmptyLayer(values[index]) {
        values[index] := None;
        return Some(index);
      }
    }
    return None;
  }

  // ----- runs

  /** Every layer is its input with subtrees deleted, or was cleared. */
  predicate IsPruning(layers: seq<Layer>, trees: Trees)
  {
    |trees| == |layers|
        && forall l :: 0 <= l < |trees| && trees[l].Some? ==>
            layers[l].value.Some? && Pruned(layers[l].value.value, trees[l].value)
  }

  function CloneLayer(layer: Layer): Option<Tree> { if layer.value.Some? then Some(Clone(layer.value.value)) else None }

  function Clones(layers: seq<Layer>): (r: Trees)
    ensures |r| == |layers| && forall l :: 0 <= l < |r| ==> r[l] == CloneLayer(layers[l])
  {
    seq(|layers|, l requires 0 <= l < |layers| => CloneLayer(layers[l]))
  }

  function CurrentLayer(layer: Layer, tree: Option<Tree>): Layer
  {
    Layer(if tree.Some? then Some(Plain(tree.value)) else None, layer.profileOverlay)
  }

  /** The layers as the merge sees them. */
  function Current(layers: seq<Layer>, trees: Trees): (r: seq<Layer>)
    requires |trees| == |layers|
    ensures |r| == |layers| && forall l :: 0 <= l < |r| ==> r[l] == CurrentLayer(layers[l], trees[l])
  {
    seq(|layers|, l requires 0 <= l < |layers| => CurrentLayer(layers[l], trees[l]))
  }

  lemma ClonesAreWhole(layers: seq<Layer>)
    ensures IsPruning(layers, Clones(layers)) && Current(layers, Clones(layers)) == layers
  {
    hide Pruned, Clone, Plain;
    forall l | 0 <= l < |layers| && layers[l].value.Some?
      ensures Pruned(layers[l].value.value, Clone(layers[l].value.value))
              && Plain(Clone(layers[l].value.value)) == layers[l].value.value
    {
      CloneIsWhole(layers[l].value.value);
    }
  }

  type Schema = Option<Json> -> Outcome

  type Merge = seq<Layer> -> Option<Json>

  /** One round: a chosen subtree goes; or, when the issues name nothing that is left and one is at the root, the
      highest layer that is not empty. */
  ghost predicate Round(trees: Trees, issues: seq<Issue>, after: Trees)
  {
    if Stuck(trees, issues) then
        HasRootIssue(issues) && exists k: nat :: HighestFilled(trees, k) && after == trees[k := None]
    else exists hit :: Leads(trees, hit) && Chosen(trees, issues, hit) && after == After(trees, hit)
  }

  ghost predicate IsRun(layers: seq<Layer>, schema: Schema, merge: Merge, run: seq<Trees>)
  {
    && run != [] && run[0] == Clones(layers)
    && (forall i :: 0 <= i < |run| ==> |run[i]| == |layers|)
    && forall i :: 0 <= i < |run| - 1 ==> Follows(layers, schema, merge, run[i], run[i + 1])
  }

  ghost predicate Follows(layers: seq<Layer>, schema: Schema, merge: Merge, trees: Trees, after: Trees)
    requires |trees| == |layers|
  {
    var outcome := schema(merge(Current(layers, trees)));
    outcome.Rejected? && Round(trees, outcome.issues, after)
  }

  /** All nodes left in all layers, by their original paths. */
  function Survivors(trees: Trees): set<(nat, Path)>
  {
    set l: nat, q | l < |trees| && trees[l].Some? && q in Nodes(trees[l].value) :: (l, q)
  }

  /** A discard keeps every layer a pruning of its input, and removes the nodes at and below one place in one layer. */
  lemma DiscardPrunes(layers: seq<Layer>, trees: Trees, hit: Hit)
    requires IsPruning(layers, trees) && Leads(trees, hit)
    ensures IsPruning(layers, After(trees, hit))
    ensures var name := NodeName(trees[hit.layer].value, hit.path);
            && (hit.layer, name) in Survivors(trees)
            && Survivors(After(trees, hit)) == set s | s in Survivors(trees) && !(s.0 == hit.layer && name <= s.1)
    ensures Survivors(After(trees, hit)) < Survivors(trees)
  {
    hide Pruned, Nodes, NodeName, Discarded, Node;
    var t := trees[hit.layer].value;
    DiscardKeepsPruned(layers[hit.layer].value.value, t, hit.path);
    DiscardRemovesOneSubtree(layers[hit.layer].value.value, t, hit.path);
    var name, after := NodeName(t, hit.path), After(trees, hit);
    forall l: nat, q ensures (l, q) in Survivors(after)
        <==> (l, q) in Survivors(trees) && !(l == hit.layer && name <= q) {
      assert l < |trees| && l != hit.layer ==> after[l] == trees[l];
    }
    assert (hit.layer, name) !in Survivors(after);
  }

  lemma ClearPrunes(layers: seq<Layer>, trees: Trees, k: nat)
    requires IsPruning(layers, trees) && HighestFilled(trees, k)
    ensures IsPruning(layers, trees[k := None])
    ensures (k, []) in Survivors(trees)
    ensures Survivors(trees[k := None]) == set s | s in Survivors(trees) && s.0 != k
    ensures Survivors(trees[k := None]) < Survivors(trees)
  {
  }

  /** Every round keeps the layers prunings of their inputs, and leaves strictly fewer nodes. */
  lemma RoundShrinks(layers: seq<Layer>, trees: Trees, issues: seq<Issue>, after: Trees)
    requires IsPruning(layers, trees) && Round(trees, issues, after)
    ensures IsPruning(layers, after) && Survivors(after) < Survivors(trees)
  {
    hide Stuck, Chosen, Survivors, IsPruning, NodeName, Node;
    if Stuck(trees, issues) {
      var k: nat :| HighestFilled(trees, k) && after == trees[k := None];
      ClearPrunes(layers, trees, k);
    } else {
      var hit :| Leads(trees, hit) && Chosen(trees, issues, hit) && after == After(trees, hit);
      DiscardPrunes(layers, trees, hit);
    }
  }

  /** On every run, whatever the schema and the merge are, every layer only ever loses subtrees, and there are no
      more rounds than nodes. */
  lemma {:induction false} RunPrunes(layers: seq<Layer>, schema: Schema, merge: Merge, run: seq<Trees>, i: nat)
    requires IsRun(layers, schema, merge, run) && i < |run|
    ensures IsPruning(layers, run[i])
    ensures |Survivors(run[i])| + i <= |Survivors(Clones(layers))|
  {
    hide IsPruning, Survivors, Round, Clones;
    if i == 0 {
      ClonesAreWhole(layers);
    } else {
      RunPrunes(layers, schema, merge, run, i - 1);
      assert Follows(layers, schema, merge, run[i - 1], run[i]);
      RoundShrinks(layers, run[i - 1], schema(merge(Current(layers, run[i - 1]))).issues, run[i]);
      SmallerSet(Survivors(run[i]), Survivors(run[i - 1]));
    }
  }

  lemma SmallerSet<T>(a: set<T>, b: set<T>)
    requires a < b
    ensures |a| < |b|
  {
    var x :| x in b && x !in a;
    assert a <= b - {x};
    SubsetSize(a, b - {x});
  }

  lemma {:induction false} SubsetSize<T>(a: set<T>, b: set<T>)
    requires a <= b
    ensures |a| <= |b|
  {
    if x :| x in a { SubsetSize(a - {x}, b - {x}); } else { assert a == {}; }
  }

  // ----- keys the schema dropped without an issue

  /** The paths of members that the output lacks, arrays compared as far as both go; unsafe names are passed over. */
  function SilentKeys(input: Tree, output: Json, path: Path): set<Path>
    decreases input
  {
    match input
    case Leaf(_) => {}
    case List(items, origin) =>
      if !output.Arr? then {}
      else
        set i: nat, q | i < |items| && i < |output.items|
            && q in SilentKeys(items[i], output.items[i], path + [ElementName(origin, i)]) :: q
    case Record(fields) =>
      if !output.Obj? then {}
      else
        (set k | k in fields && !IsUnsafeKey(k) && k !in output.fields :: path + [Name(k)])
        + set k, q | k in fields && !IsUnsafeKey(k) && k in output.fields
            && q in SilentKeys(fields[k], output.fields[k], path + [Name(k)]) :: q
  }

  function Silent(input: Option<Tree>, output: Option<Json>): set<Path>
  {
    if input.Some? && output.Some? then SilentKeys(input.value, output.value, []) else {}
  }

  /** A silently dropped key is a member of the input. */
  lemma {:induction false} SilentKeysExist(v: Json, input: Tree, output: Json, path: Path, q: Path)
    requires Pruned(v, input) && q in SilentKeys(input, output, path)
    ensures path <= q && InputNode(v, q[|path|..]).Some?
    decreases input
  {
    match input
    case List(items, origin) =>
      var i: nat :| i < |items| && i < |output.items|
          && q in SilentKeys(items[i], output.items[i], path + [ElementName(origin, i)]);
      SilentKeysExist(v.items[origin[i]], items[i], output.items[i], path + [Index(origin[i])], q);
      SilentStep(path, Index(origin[i]), q);
    case Record(fields) =>
      if k :| k in fields && !IsUnsafeKey(k) && k !in output.fields && q == path + [Name(k)] {
        assert q[|path|..] == [Name(k)];
        InputMember(v, k);
      } else {
        var k :| k in fields && !IsUnsafeKey(k) && k in output.fields
            && q in SilentKeys(fields[k], output.fields[k], path + [Name(k)]);
        SilentKeysExist(v.fields[k], fields[k], output.fields[k], path + [Name(k)], q);
        SilentStep(path, Name(k), q);
      }
    case Leaf(_) =>
  }

  lemma InputMember(v: Json, k: string)
    requires v.Obj? && k in v.fields
    ensures InputNode(v, [Name(k)]).Some?
  {
  }

  lemma SilentStep(path: Path, seg: Seg, q: Path)
    requires path + [seg] <= q
    ensures path <= q && |path| < |q| && q[|path|] == seg && q[|path|..][0] == seg
            && q[|path|..][1..] == q[|path + [seg]|..]
  {
  }

  /** Nothing is dropped where the output is the input itself, so the walk may stop there. */
  lemma {:induction false} NothingDroppedFromItself(t: Tree, path: Path)
    ensures SilentKeys(t, Plain(t), path) == {}
  {
    match t
    case List(items, origin) =>
      forall i | 0 <= i < |items| ensures SilentKeys(items[i], Plain(items[i]), path + [ElementName(origin, i)]) == {} {
        NothingDroppedFromItself(items[i], path + [ElementName(origin, i)]);
      }
    case Record(fields) =>
      forall k | k in fields ensures SilentKeys(fields[k], Plain(fields[k]), path + [Name(k)]) == {} {
        NothingDroppedFromItself(fields[k], path + [Name(k)]);
      }
    case Leaf(_) =>
  }

  /** The order in which an object lists its keys: for the object at a path, some listing of its keys. */
  type KeyOrder = (Path, set<string>) -> seq<string>

  ghost predicate IsKeyOrder(order: KeyOrder)
  {
    forall path, keys :: ListsOnce(order(path, keys), keys)
  }

  ghost predicate ListsOnce(xs: seq<string>, all: set<string>)
  {
    (forall x :: x in xs <==> x in all) && forall i, j :: 0 <= i < j < |xs| ==> xs[i] != xs[j]
  }

  /** The silently dropped keys in the order in which a walk through the input meets them. */
  function SilentWalk(order: KeyOrder, input: Tree, output: Json, path: Path): seq<Path>
    requires IsKeyOrder(order)
    decreases input, 1, 0
  {
    match input
    case Leaf(_) => []
    case List(items, _) =>
      if output.Arr? then WalkItems(order, input, output, path, Shorter(|items|, |output.items|)) else []
    case Record(fields) =>
      if output.Obj? then WalkMembers(order, input, output, path, order(path, fields.Keys)) else []
  }

  function Shorter(a: nat, b: nat): nat { if a <= b then a else b }

  function WalkItems(order: KeyOrder, input: Tree, output: Json, path: Path, n: nat): seq<Path>
    requires IsKeyOrder(order) && input.List? && output.Arr? && n <= |input.items| && n <= |output.items|
    decreases input, 0, n
  {
    if n == 0 then []
    else
      WalkItems(order, input, output, path, n - 1)
      + SilentWalk(order, input.items[n - 1], output.items[n - 1], path + [ElementName(input.origin, n - 1)])
  }

  function WalkMembers(order: KeyOrder, input: Tree, output: Json, path: Path, names: seq<string>): seq<Path>
    requires IsKeyOrder(order) && input.Record? && output.Obj? && forall k :: k in names ==> k in input.fields
    decreases input, 0, |names|
  {
    if names == [] then []
    else
      var front, k := names[..|names| - 1], names[|names| - 1];
      WalkMembers(order, input, output, path, front) + WalkMember(order, input, output, path, k)
  }

  function WalkMember(order: KeyOrder, input: Tree, output: Json, path: Path, k: string): seq<Path>
    requires IsKeyOrder(order) && input.Record? && output.Obj? && k in input.fields
    decreases input, 0, 0
  {
    if IsUnsafeKey(k) then []
    else if k !in output.fields then [path + [Name(k)]]
    else SilentWalk(order, input.fields[k], output.fields[k], path + [Name(k)])
  }

  /** Such a walk meets exactly the silently dropped keys, in whatever order objects list their keys. */
  lemma {:induction false} WalkMeets(order: KeyOrder, input: Tree, output: Json, path: Path, q: Path)
    requires IsKeyOrder(order)
    ensures q in SilentWalk(order, input, output, path) <==> q in SilentKeys(input, output, path)
    decreases input, 1, 0
  {
    match input
    case Leaf(_) =>
    case List(items, _) =>
      if output.Arr? { ItemsMeet(order, input, output, path, q, Shorter(|items|, |output.items|)); }
    case Record(fields) =>
      if output.Obj? {
        MembersMeet(order, input, output, path, q, order(path, fields.Keys));
        assert ListsOnce(order(path, fields.Keys), fields.Keys);
      }
  }

  lemma {:induction false} ItemsMeet(order: KeyOrder, input: Tree, output: Json, path: Path, q: Path, n: nat)
    requires IsKeyOrder(order) && input.List? && output.Arr? && n <= |input.items| && n <= |output.items|
    ensures q in WalkItems(order, input, output, path, n) <==>
              exists i: nat :: i < n
                && q in SilentKeys(input.items[i], output.items[i], path + [ElementName(input.origin, i)])
    decreases input, 0, n
  {
    if n > 0 {
      ItemsMeet(order, input, output, path, q, n - 1);
      WalkMeets(order, input.items[n - 1], output.items[n - 1], path + [ElementName(input.origin, n - 1)], q);
    }
  }

  /** The keys dropped at or below a member. */
  function DroppedAt(input: Tree, output: Json, path: Path, k: string): set<Path>
    requires input.Record? && output.Obj? && k in input.fields
  {
    if IsUnsafeKey(k) then {}
    else if k !in output.fields then {path + [Name(k)]}
    else SilentKeys(input.fields[k], output.fields[k], path + [Name(k)])
  }

  lemma {:induction false} MembersMeet(order: KeyOrder, input: Tree, output: Json, path: Path, q: Path,
                                       names: seq<string>)
    requires IsKeyOrder(order) && input.Record? && output.Obj? && forall k :: k in names ==> k in input.fields
    ensures q in WalkMembers(order, input, output, path, names) <==>
              exists k :: k in names && q in DroppedAt(input, output, path, k)
    decreases input, 0, |names|
  {
    if names != [] {
      var front, k := names[..|names| - 1], names[|names| - 1];
      assert names == front + [k];
      MembersMeet(order, input, output, path, q, front);
      if !IsUnsafeKey(k) && k in output.fields {
        WalkMeets(order, input.fields[k], output.fields[k], path + [Name(k)], q);
      }
    }
  }

  /** Every path the walk meets goes on from where it started, through the member or element it is in. */
  lemma {:induction false} ItemsExtend(order: KeyOrder, v: Json, input: Tree, output: Json, path: Path, q: Path, n: nat)
    requires IsKeyOrder(order) && Pruned(v, input) && input.List? && output.Arr?
    requires n <= |input.items| && n <= |output.items| && q in WalkItems(order, input, output, path, n)
    ensures |path| < |q| && exists i: nat :: i < n && q[|path|] == Index(input.origin[i])
  {
    ItemsMeet(order, input, output, path, q, n);
    var i: nat :| i < n && q in SilentKeys(input.items[i], output.items[i], path + [ElementName(input.origin, i)]);
    var origin := input.origin;
    SilentKeysExist(v.items[origin[i]], input.items[i], output.items[i], path + [Index(origin[i])], q);
    SilentStep(path, Index(origin[i]), q);
  }

  lemma MemberExtends(order: KeyOrder, v: Json, input: Tree, output: Json, path: Path, k: string, q: Path)
    requires IsKeyOrder(order) && Pruned(v, input) && input.Record? && output.Obj? && k in input.fields
    requires q in WalkMember(order, input, output, path, k)
    ensures |path| < |q| && q[|path|] == Name(k)
  {
    if k in output.fields {
      WalkMeets(order, input.fields[k], output.fields[k], path + [Name(k)], q);
      SilentKeysExist(v.fields[k], input.fields[k], output.fields[k], path + [Name(k)], q);
      SilentStep(path, Name(k), q);
    }
  }

  lemma {:induction false} MembersExtend(order: KeyOrder, v: Json, input: Tree, output: Json, path: Path, q: Path,
                                         names: seq<string>)
    requires IsKeyOrder(order) && Pruned(v, input) && input.Record? && output.Obj?
    requires (forall k :: k in names ==> k in input.fields) && q in WalkMembers(order, input, output, path, names)
    ensures |path| < |q| && q[|path|].Name? && q[|path|].s in names
    decreases |names|
  {
    var front, k := names[..|names| - 1], names[|names| - 1];
    assert names == front + [k];
    if q in WalkMembers(order, input, output, path, front) {
      MembersExtend(order, v, input, output, path, q, front);
    } else {
      MemberExtends(order, v, input, output, path, k, q);
    }
  }

  ghost predicate Once(paths: seq<Path>) { forall i, j :: 0 <= i < j < |paths| ==> paths[i] != paths[j] }

  lemma OnceConcat(a: seq<Path>, b: seq<Path>)
    requires Once(a) && Once(b) && forall p :: p in a ==> p !in b
    ensures Once(a + b)
  {
    forall i, j | 0 <= i < j < |a + b| ensures (a + b)[i] != (a + b)[j] {
      if i < |a| <= j { assert a[i] in a && b[j - |a|] in b; }
    }
  }

  /** No key is met twice. */
  lemma {:induction false} WalkMeetsOnce(order: KeyOrder, v: Json, input: Tree, output: Json, path: Path)
    requires IsKeyOrder(order) && Pruned(v, input)
    ensures Once(SilentWalk(order, input, output, path))
    decreases input, 1, 0
  {
    match input
    case Leaf(_) =>
    case List(items, _) =>
      if output.Arr? { ItemsMeetOnce(order, v, input, output, path, Shorter(|items|, |output.items|)); }
    case Record(fields) =>
      if output.Obj? {
        assert ListsOnce(order(path, fields.Keys), fields.Keys);
        MembersMeetOnce(order, v, input, output, path, order(path, fields.Keys));
      }
  }

  lemma {:induction false} ItemsMeetOnce(order: KeyOrder, v: Json, input: Tree, output: Json, path: Path, n: nat)
    requires IsKeyOrder(order) && Pruned(v, input) && input.List? && output.Arr?
    requires n <= |input.items| && n <= |output.items|
    ensures Once(WalkItems(order, input, output, path, n))
    decreases input, 0, n
  {
    if n > 0 {
      var a := WalkItems(order, input, output, path, n - 1);
      var next := path + [ElementName(input.origin, n - 1)];
      var b := SilentWalk(order, input.items[n - 1], output.items[n - 1], next);
      ItemsMeetOnce(order, v, input, output, path, n - 1);
      WalkMeetsOnce(order, v.items[input.origin[n - 1]], input.items[n - 1], output.items[n - 1], next);
      forall q | q in a ensures q !in b {
        ItemsExtend(order, v, input, output, path, q, n - 1);
        if q in b {
          WalkMeets(order, input.items[n - 1], output.items[n - 1], next, q);
          SilentKeysExist(v.items[input.origin[n - 1]], input.items[n - 1], output.items[n - 1], next, q);
          SilentStep(path, Index(input.origin[n - 1]), q);
        }
      }
      OnceConcat(a, b);
    }
  }

  lemma {:induction false} MembersMeetOnce(order: KeyOrder, v: Json, input: Tree, output: Json, path: Path,
                                           names: seq<string>)
    requires IsKeyOrder(order) && Pruned(v, input) && input.Record? && output.Obj?
    requires forall k :: k in names ==> k in input.fields
    requires forall i, j :: 0 <= i < j < |names| ==> names[i] != names[j]
    ensures Once(WalkMembers(order, input, output, path, names))
    decreases input, 0, |names|
  {
    if names != [] {
      var front, k := names[..|names| - 1], names[|names| - 1];
      var a, b := WalkMembers(order, input, output, path, front), WalkMember(order, input, output, path, k);
      MembersMeetOnce(order, v, input, output, path, front);
      if k in output.fields {
        WalkMeetsOnce(order, v.fields[k], input.fields[k], output.fields[k], path + [Name(k)]);
      }
      forall q | q in a ensures q !in b {
        MembersExtend(order, v, input, output, path, q, front);
        if q in b { MemberExtends(order, v, input, output, path, k, q); }
      }
      OnceConcat(a, b);
    }
  }

  /** `collectSilentUnknownKeys` */
  method CollectSilentUnknownKeys(order: KeyOrder, input: Tree, output: Json, path: Path, removed: seq<Path>)
    returns (r: seq<Path>)
    requires IsKeyOrder(order)
    ensures r == removed + SilentWalk(order, input, output, path)
    decreases input
  {
    r := removed;
    if input.List? && output.Arr? {
      var retainedLength := Shorter(|input.items|, |output.items|);
      for i := 0 to retainedLength
        invariant r == removed + WalkItems(order, input, output, path, i)
      {
        r := CollectSilentUnknownKeys(order, input.items[i], output.items[i], path + [ElementName(input.origin, i)], r);
      }
    } else if input.Record? && output.Obj? {
      var keys := order(path, input.fields.Keys);
      assert ListsOnce(keys, input.fields.Keys);
      for i := 0 to |keys|
        invariant r == removed + WalkMembers(order, input, output, path, keys[..i])
      {
        var key := keys[i];
        assert key in keys && keys[..i + 1][..i] == keys[..i];
        if IsUnsafeKey(key) { continue; }
        if key !in output.fields {
          r := r + [path + [Name(key)]];
        } else {
          r := CollectSilentUnknownKeys(order, input.fields[key], output.fields[key], path + [Name(key)], r);
        }
      }
      assert keys[..|keys|] == keys;
    }
  }

  function SilentOrder(order: KeyOrder, input: Option<Tree>, output: Option<Json>): seq<Path>
    requires IsKeyOrder(order)
  {
    if input.Some? && output.Some? then SilentWalk(order, input.value, output.value, []) else []
  }

  /** `silentUnknownKeys` */
  method SilentUnknownKeys(order: KeyOrder, input: Option<Tree>, output: Option<Json>) returns (r: seq<Path>)
    requires IsKeyOrder(order)
    ensures r == SilentOrder(order, input, output)
    ensures forall q :: q in r <==> q in Silent(input, output)
  {
    hide IsKeyOrder, SilentWalk, SilentKeys;
    if input.None? || output.None? { return []; }
    r := CollectSilentUnknownKeys(order, input.value, output.value, [], []);
    assert [] + r == r;
    forall q ensures q in r <==> q in Silent(input, output) { WalkMeets(order, input.value, output.value, [], q); }
  }

  // ----- what is reported

  /** What is discarded, if anything is. */
  ghost function ChosenHit(trees: Trees, issues: seq<Issue>): (r: Option<Hit>)
    ensures r.Some? ==> Chosen(trees, issues, r.value)
  {
    if hit :| Chosen(trees, issues, hit) then Some(hit) else None
  }

  /** What a round reports: the key that was chosen, if it is one the schema does not know. */
  ghost function RoundReport(trees: Trees, issues: seq<Issue>, includeLayer: bool): seq<Removed>
  {
    var hit := ChosenHit(trees, issues);
    if Stuck(trees, issues) || hit.None? || hit.value.layer >= |trees| then []
    else Report(trees, issues, hit.value, includeLayer)
  }

  lemma RoundReports(trees: Trees, issues: seq<Issue>, hit: Hit, includeLayer: bool)
    requires !Stuck(trees, issues) && Chosen(trees, issues, hit) && hit.layer < |trees|
    ensures RoundReport(trees, issues, includeLayer) == Report(trees, issues, hit, includeLayer)
  {
    hide Chosen, Stuck, Report;
    ChosenIsOne(trees, issues, hit, ChosenHit(trees, issues).value);
  }

  /** The reports of the rounds of a run, in order. */
  ghost function Reports(layers: seq<Layer>, schema: Schema, merge: Merge, run: seq<Trees>): seq<Removed>
    requires forall i :: 0 <= i < |run| ==> |run[i]| == |layers|
  {
    if |run| <= 1 then []
    else
      var n := |run| - 1;
      Reports(layers, schema, merge, run[..n])
      + match schema(merge(Current(layers, run[n - 1])))
        case Accepted(_) => []
        case Rejected(issues) => RoundReport(run[n - 1], issues, true)
  }

  ghost function SilentReports(trees: Trees, silent: seq<Path>): (r: seq<Removed>)
    ensures |r| == |silent| && forall i :: 0 <= i < |r| ==> r[i] == SilentReport(trees, silent[i])
  {
    seq(|silent|, i requires 0 <= i < |silent| => SilentReport(trees, silent[i]))
  }

  // ----- the parser

  /** A key reported with a layer is one that the layer's input has. */
  predicate NamesInput(layers: seq<Layer>, r: Removed)
  {
    r.layer.Some? ==>
      && r.layer.value < |layers| && layers[r.layer.value].value.Some?
      && InputNode(layers[r.layer.value].value.value, r.path).Some?
  }

  predicate AllNameInput(layers: seq<Layer>, keys: seq<Removed>) {
    forall i :: 0 <= i < |keys| ==> NamesInput(layers, keys[i])
  }

  predicate NoneTwice(keys: seq<Removed>) { forall i, j :: 0 <= i < j < |keys| ==> keys[i] != keys[j] }

  method DedupeUnknownKeys(keys: seq<Removed>) returns (r: seq<Removed>)
    ensures r == Distinct(keys)
  {
    r := [];
    var seen: set<Removed> := {};
    for i := 0 to |keys|
      invariant r == Distinct(keys[..i]) && seen == set x | x in keys[..i]
    {
      assert keys[..i + 1][..i] == keys[..i];
      if keys[i] !in seen {
        seen := seen + {keys[i]};
        r := r + [keys[i]];
      }
    }
    assert keys[..|keys|] == keys;
  }

  lemma DedupedKeysNameInput(layers: seq<Layer>, keys: seq<Removed>)
    requires AllNameInput(layers, keys)
    ensures AllNameInput(layers, Distinct(keys)) && NoneTwice(Distinct(keys))
  {
  }

  lemma ReportNamesInput(layers: seq<Layer>, trees: Trees, issues: seq<Issue>, hit: Hit)
    requires IsPruning(layers, trees) && Leads(trees, hit)
    ensures AllNameInput(layers, Report(trees, issues, hit, true))
  {
    hide Pruned, OriginalPath, InputNode;
    OriginalPathIsTrue(layers[hit.layer].value.value, trees[hit.layer].value, hit.path);
  }

  lemma AllNameInputConcat(layers: seq<Layer>, a: seq<Removed>, b: seq<Removed>)
    requires AllNameInput(layers, a) && AllNameInput(layers, b)
    ensures AllNameInput(layers, a + b)
  {
    hide NamesInput;
  }

  datatype LayersResult =
    | Parsed(data: Option<Json>, layers: seq<Layer>, unknownKeys: seq<Removed>)
    | Failed(issues: seq<Issue>, unknownKeys: seq<Removed>)

  predicate AllEmpty(trees: Trees) { forall l :: 0 <= l < |trees| ==> IsEmptyLayer(trees[l]) }

  /** What a result says about the run that led to it: accepted at its end, or refused with nothing left to remove. The
      keys that are reported are those of the rounds in order, then the silently dropped ones as the walk through the
      merge meets them, and none twice. */
  ghost predicate EndsRun(layers: seq<Layer>, schema: Schema, merge: Merge, order: KeyOrder, run: seq<Trees>,
                          r: LayersResult)
    requires IsKeyOrder(order)
  {
    && IsRun(layers, schema, merge, run)
    && var trees := run[|run| - 1];
       var reports := Reports(layers, schema, merge, run);
       match r
       case Parsed(data, kept, keys) =>
         && kept == Current(layers, trees) && schema(merge(kept)) == Accepted(data)
         && keys == Distinct(reports + SilentReports(trees, SilentOrder(order, CloneOf(merge(kept)), data)))
       case Failed(issues, keys) =>
         && schema(merge(Current(layers, trees))) == Rejected(issues)
         && Stuck(trees, issues) && (HasRootIssue(issues) ==> AllEmpty(trees))
         && keys == Distinct(reports)
  }

  function CloneOf(v: Option<Json>): Option<Tree> { if v.Some? then Some(Clone(v.value)) else None }

  lemma {:induction false} RunGrows(layers: seq<Layer>, schema: Schema, merge: Merge, run: seq<Trees>, after: Trees)
    requires IsRun(layers, schema, merge, run) && |after| == |layers|
    requires Follows(layers, schema, merge, run[|run| - 1], after)
    ensures IsRun(layers, schema, merge, run + [after])
    ensures Reports(layers, schema, merge, run + [after])
            == Reports(layers, schema, merge, run)
               + RoundReport(run[|run| - 1], schema(merge(Current(layers, run[|run| - 1]))).issues, true)
  {
    hide Follows, Clones, Reports, RoundReport;
    var longer := run + [after];
    assert forall i :: 0 <= i < |run| ==> longer[i] == run[i];
    assert Follows(layers, schema, merge, run[|run| - 1], after);
    ReportsGrow(layers, schema, merge, run, after);
  }

  lemma {:induction false} ReportsGrow(layers: seq<Layer>, schema: Schema, merge: Merge, run: seq<Trees>, after: Trees)
    requires run != [] && |after| == |layers| && forall i :: 0 <= i < |run| ==> |run[i]| == |layers|
    requires Follows(layers, schema, merge, run[|run| - 1], after)
    ensures Reports(layers, schema, merge, run + [after])
            == Reports(layers, schema, merge, run)
               + RoundReport(run[|run| - 1], schema(merge(Current(layers, run[|run| - 1]))).issues, true)
  {
    hide Round, RoundReport, Current;
    var longer := run + [after];
    assert longer[..|run|] == run && longer[|run| - 1] == run[|run| - 1];
  }

  /** The body of the loop: a discard, or else a cleared layer, or nothing more can be done. */
  method OneRound(values: array<Option<Tree>>, ghost layers: seq<Layer>, issues: seq<Issue>, unknownKeys: seq<Removed>)
    returns (advanced: bool, keys: seq<Removed>)
    requires IsPruning(layers, values[..]) && AllNameInput(layers, unknownKeys)
    modifies values
    ensures AllNameInput(layers, keys) && |values[..]| == |layers|
    ensures advanced ==> Round(old(values[..]), issues, values[..])
    ensures keys == unknownKeys + RoundReport(old(values[..]), issues, true)
    ensures !advanced ==>
              values[..] == old(values[..]) && Stuck(values[..], issues)
                  && (HasRootIssue(issues) ==> AllEmpty(values[..]))
  {
    hide Stuck, Chosen, Pruned, IsEmptyLayer, NamesInput, HasRootIssue, Report, Node, ChosenHit;
    ghost var trees := values[..];
    var hit;
    hit, keys := DiscardIssues(values, issues, unknownKeys, true);
    if hit.Some? {
      ReportNamesInput(layers, trees, issues, hit.value);
      RoundReports(trees, issues, hit.value, true);
      AllNameInputConcat(layers, unknownKeys, Report(trees, issues, hit.value, true));
      return true, keys;
    }
    if !HasRootIssue(issues) { return false, keys; }
    var cleared := ClearHighestPriorityLayer(values);
    return cleared.Some?, keys;
  }

  method HighestLayerContainingPath(values: array<Option<Tree>>, path: Path) returns (layer: Option<nat>)
    ensures layer.Some? ==> Highest(values[..], path, layer.value)
    ensures layer.None? ==> NoTargetAt(values[..], path)
  {
    hide HasTarget;
    for index := values.Length downto 0
      invariant forall l :: index <= l < values.Length ==> !HasTarget(values[..][l], path)
    {
      var parent := ParentAtPath(values[index], path);
      if parent.Some? { return Some(index); }
    }
    return None;
  }

  lemma OriginalNamesInput(layers: seq<Layer>, trees: Trees, path: Path, layer: nat)
    requires IsPruning(layers, trees) && Highest(trees, path, layer)
    ensures NamesInput(layers, Removed(OriginalPath(trees[layer], path), Some(layer)))
  {
    hide Pruned, OriginalPath, InputNode;
    OriginalPathIsTrue(layers[layer].value.value, trees[layer].value, path);
  }

  /** The silently dropped keys of the merge, each by its original path in the highest layer that has it. */
  method ReportSilent(values: array<Option<Tree>>, ghost layers: seq<Layer>, silent: seq<Path>,
      unknownKeys: seq<Removed>)
    returns (keys: seq<Removed>)
    requires IsPruning(layers, values[..]) && AllNameInput(layers, unknownKeys)
    ensures AllNameInput(layers, keys)
    ensures keys == unknownKeys + SilentReports(values[..], silent)
  {
    hide IsPruning, NamesInput, Highest, NoTargetAt, SilentReport;
    keys := unknownKeys;
    for i := 0 to |silent|
      invariant AllNameInput(layers, keys)
      invariant keys == unknownKeys + SilentReports(values[..], silent[..i])
    {
      var path := silent[i];
      var layer := HighestLayerContainingPath(values, path);
      var removed := Removed(path, None);
      if layer.Some? {
        HighestIsOne(values[..], path, layer.value);
        OriginalNamesInput(layers, values[..], path, layer.value);
        var original := OriginalPathAtValue(values[layer.value], path);
        removed := Removed(original, layer);
      } else {
        assert NamesInput(layers, removed) by { NoLayerNamed(layers, path); }
        NoneIsHighest(values[..], path);
      }
      keys := keys + [removed];
      assert SilentReports(values[..], silent[..i + 1]) == SilentReports(values[..], silent[..i]) + [removed];
    }
    assert silent[..|silent|] == silent;
  }

  lemma NoLayerNamed(layers: seq<Layer>, path: Path)
    ensures NamesInput(layers, Removed(path, None))
  {
  }

  /** How a key the schema dropped silently is reported. */
  ghost function SilentReport(trees: Trees, path: Path): Removed
  {
    if layer: nat :| Highest(trees, path, layer) then Removed(OriginalPath(trees[layer], path), Some(layer))
        else Removed(path, None)
  }

  lemma HighestIsOne(trees: Trees, path: Path, layer: nat)
    requires Highest(trees, path, layer)
    ensures layer < |trees| && SilentReport(trees, path) == Removed(OriginalPath(trees[layer], path), Some(layer))
  {
    hide HasTarget, OriginalPath;
  }

  lemma NoneIsHighest(trees: Trees, path: Path)
    requires NoTargetAt(trees, path)
    ensures SilentReport(trees, path) == Removed(path, None)
  {
    hide HasTarget, OriginalPath;
  }

  /** `tolerantParseLayers`; `order` is the order in which the objects of the last merge list their keys. */
  method TolerantParseLayers(schema: Schema, layers: seq<Layer>, merge: Merge, order: KeyOrder)
    returns (r: LayersResult)
    requires IsKeyOrder(order)
    ensures exists run :: EndsRun(layers, schema, merge, order, run, r)
    ensures AllNameInput(layers, r.unknownKeys) && NoneTwice(r.unknownKeys)
    ensures schema(merge(layers)).Accepted? ==> r.Parsed? && r.layers == layers
  {
    hide Clones, Current, Survivors, Stuck, Round, HasRootIssue, AllEmpty, IsPruning, NamesInput, NoneTwice,
         Distinct, SilentReports, Silent, SilentOrder, Reports, RoundReport, Clone, IsKeyOrder;
    var values := new Option<Tree>[|layers|](l requires 0 <= l < |layers| => CloneLayer(layers[l]));
    assert values[..] == Clones(layers);
    ClonesAreWhole(layers);
    ghost var run := [values[..]];
    NothingReported(layers, schema, merge, run);
    var unknownKeys := [];
    var outcome := schema(merge(Current(layers, values[..])));
    while outcome.Rejected?
      invariant IsRun(layers, schema, merge, run) && run[|run| - 1] == values[..] && |values[..]| == |layers|
      invariant IsPruning(layers, values[..]) && AllNameInput(layers, unknownKeys)
      invariant unknownKeys == Reports(layers, schema, merge, run)
      invariant outcome == schema(merge(Current(layers, values[..])))
      invariant schema(merge(layers)).Accepted? ==> outcome.Accepted? && values[..] == Clones(layers)
      decreases Survivors(values[..])
    {
      ghost var trees := values[..];
      var advanced;
      advanced, unknownKeys := OneRound(values, layers, outcome.issues, unknownKeys);
      if !advanced {
        StuckReportsNothing(trees, outcome.issues);
        assert Reports(layers, schema, merge, run) + [] == Reports(layers, schema, merge, run);
        var keys := DedupeUnknownKeys(unknownKeys);
        DedupedKeysNameInput(layers, unknownKeys);
        r := Failed(outcome.issues, keys);
        assert EndsRun(layers, schema, merge, order, run, r);
        return;
      }
      RoundShrinks(layers, trees, outcome.issues, values[..]);
      RunGrows(layers, schema, merge, run, values[..]);
      run := run + [values[..]];
      outcome := schema(merge(Current(layers, values[..])));
    }
    var kept := Current(layers, values[..]);
    var silent := SilentUnknownKeys(order, CloneOf(merge(kept)), outcome.data);
    unknownKeys := ReportSilent(values, layers, silent, unknownKeys);
    var keys := DedupeUnknownKeys(unknownKeys);
    DedupedKeysNameInput(layers, unknownKeys);
    r := Parsed(outcome.data, kept, keys);
    assert EndsRun(layers, schema, merge, order, run, r);
  }

  lemma NothingReported(layers: seq<Layer>, schema: Schema, merge: Merge, run: seq<Trees>)
    requires |run| == 1 && |run[0]| == |layers|
    ensures Reports(layers, schema, merge, run) == []
  {
  }

  lemma StuckReportsNothing(trees: Trees, issues: seq<Issue>)
    requires Stuck(trees, issues)
    ensures RoundReport(trees, issues, true) == []
  {
  }

  // ----- one value, without layers

  datatype ValueResult =
    | Valid(data: Option<Json>, unknownKeys: seq<Removed>)
    | Invalid(issues: seq<Issue>, unknownKeys: seq<Removed>)

  /** A key reported without a layer is one that the value has. */
  predicate AllInValue(value: Json, keys: seq<Removed>)
  {
    forall i :: 0 <= i < |keys| ==> keys[i].layer == None && InputNode(value, keys[i].path).Some?
  }

  type ValueSchema = Option<Json> -> Outcome

  /** One round on one value: the chosen subtree goes. */
  ghost predicate ValueRound(schema: ValueSchema, t: Tree, after: Tree)
  {
    var outcome := schema(Some(Plain(t)));
    && outcome.Rejected? && !Stuck([Some(t)], outcome.issues)
    && exists hit :: Leads([Some(t)], hit) && Chosen([Some(t)], outcome.issues, hit) && after == Discarded(t, hit.path)
  }

  ghost predicate IsValueRun(value: Json, schema: ValueSchema, run: seq<Tree>)
  {
    && run != [] && run[0] == Clone(value)
    && forall i :: 0 <= i < |run| - 1 ==> ValueRound(schema, run[i], run[i + 1])
  }

  ghost function ValueReports(schema: ValueSchema, run: seq<Tree>): seq<Removed>
  {
    if |run| <= 1 then []
    else
      var n := |run| - 1;
      ValueReports(schema, run[..n])
      + match schema(Some(Plain(run[n - 1])))
        case Accepted(_) => []
        case Rejected(issues) => RoundReport([Some(run[n - 1])], issues, false)
  }

  function PathReports(paths: seq<Path>): (r: seq<Removed>)
    ensures |r| == |paths| && forall i :: 0 <= i < |r| ==> r[i] == Removed(paths[i], None)
  {
    seq(|paths|, i requires 0 <= i < |paths| => Removed(paths[i], None))
  }

  /** What a result says about the run on one value that led to it: accepted at its end, or refused with nothing left to
      remove; a value that is no object is not worked on at all. */
  ghost predicate EndsValueRun(value: Json, schema: ValueSchema, order: KeyOrder, run: seq<Tree>, r: ValueResult)
    requires IsKeyOrder(order)
  {
    && IsValueRun(value, schema, run)
    && var t := run[|run| - 1];
       match r
       case Valid(data, keys) =>
         && schema(Some(Plain(t))) == Accepted(data)
         && keys == Distinct(ValueReports(schema, run) + PathReports(SilentOrder(order, Some(t), data)))
       case Invalid(issues, keys) =>
         && schema(Some(Plain(t))) == Rejected(issues) && keys == Distinct(ValueReports(schema, run))
         && if value.Obj? then Stuck([Some(t)], issues) else |run| == 1
  }

  lemma {:induction false} ValueRunGrows(value: Json, schema: ValueSchema, run: seq<Tree>, after: Tree)
    requires IsValueRun(value, schema, run) && ValueRound(schema, run[|run| - 1], after)
    ensures IsValueRun(value, schema, run + [after])
    ensures ValueReports(schema, run + [after])
            == ValueReports(schema, run)
               + RoundReport([Some(run[|run| - 1])], schema(Some(Plain(run[|run| - 1]))).issues, false)
  {
    hide ValueRound, ValueReports, Clone, RoundReport;
    var longer := run + [after];
    assert forall i :: 0 <= i < |run| ==> longer[i] == run[i];
    ValueReportsGrow(schema, run, after);
  }

  lemma {:induction false} ValueReportsGrow(schema: ValueSchema, run: seq<Tree>, after: Tree)
    requires run != [] && ValueRound(schema, run[|run| - 1], after)
    ensures ValueReports(schema, run + [after])
            == ValueReports(schema, run)
               + RoundReport([Some(run[|run| - 1])], schema(Some(Plain(run[|run| - 1]))).issues, false)
  {
    hide RoundReport, Plain, Stuck, Chosen, Discarded;
    var longer := run + [after];
    assert longer[..|run|] == run && longer[|run| - 1] == run[|run| - 1];
  }

  /** On every run each value is the input with subtrees deleted, and there are no more rounds than nodes. */
  lemma {:induction false} ValueRunPrunes(value: Json, schema: ValueSchema, run: seq<Tree>, i: nat)
    requires IsValueRun(value, schema, run) && i < |run|
    ensures Pruned(value, run[i]) && |Nodes(run[i])| + i <= |Nodes(Clone(value))|
  {
    hide Pruned, Nodes, Clone, Plain, Stuck, Chosen, Discarded;
    if i == 0 {
      CloneIsWhole(value);
    } else {
      ValueRunPrunes(value, schema, run, i - 1);
      assert ValueRound(schema, run[i - 1], run[i]);
      var issues := schema(Some(Plain(run[i - 1]))).issues;
      var hit :| Leads([Some(run[i - 1])], hit) && Chosen([Some(run[i - 1])], issues, hit)
                 && run[i] == Discarded(run[i - 1], hit.path);
      ReportInValue(value, run[i - 1], issues, hit);
      SmallerSet(Nodes(run[i]), Nodes(run[i - 1]));
    }
  }

  lemma DedupedInValue(value: Json, keys: seq<Removed>)
    requires AllInValue(value, keys)
    ensures AllInValue(value, Distinct(keys))
  {
    hide InputNode;
    forall i | 0 <= i < |Distinct(keys)|
      ensures Distinct(keys)[i].layer == None && InputNode(value, Distinct(keys)[i].path).Some?
    {
      assert Distinct(keys)[i] in keys;
    }
  }

  lemma ReportInValue(value: Json, t: Tree, issues: seq<Issue>, hit: Hit)
    requires Pruned(value, t) && Leads([Some(t)], hit)
    ensures AllInValue(value, Report([Some(t)], issues, hit, false))
    ensures Pruned(value, Discarded(t, hit.path)) && Nodes(Discarded(t, hit.path)) < Nodes(t)
  {
    hide Pruned, OriginalPath, InputNode, Nodes, Discarded, NodeName;
    OriginalPathIsTrue(value, t, hit.path);
    DiscardKeepsPruned(value, t, hit.path);
    DiscardRemovesOneSubtree(value, t, hit.path);
    assert NodeName(t, hit.path) !in Nodes(Discarded(t, hit.path));
  }

  /** The silently dropped keys of a value, by their original paths. */
  method PushSilent(value: Json, t: Tree, data: Option<Json>, order: KeyOrder, unknownKeys: seq<Removed>)
    returns (keys: seq<Removed>)
    requires IsKeyOrder(order) && Pruned(value, t) && AllInValue(value, unknownKeys)
    ensures AllInValue(value, keys) && keys == unknownKeys + PathReports(SilentOrder(order, Some(t), data))
  {
    hide Pruned, InputNode, SilentKeys, SilentOrder, IsKeyOrder;
    var silent := SilentUnknownKeys(order, Some(t), data);
    keys := unknownKeys + PathReports(silent);
    forall i | 0 <= i < |silent| ensures InputNode(value, silent[i]).Some? {
      assert silent[i] in silent;
      SilentKeysExist(value, t, data.value, [], silent[i]);
      assert silent[i][0..] == silent[i];
    }
  }

  lemma PathsReportedOnce(value: Json, t: Tree, data: Option<Json>, order: KeyOrder)
    requires IsKeyOrder(order) && Pruned(value, t)
    ensures var reports := PathReports(SilentOrder(order, Some(t), data)); Distinct([] + reports) == reports
  {
    hide IsKeyOrder, Pruned, SilentWalk, PathReports, Distinct, Once;
    NothingIsOnce();
    if data.Some? { WalkMeetsOnce(order, value, t, data.value, []); }
    OnceIsDistinct(SilentOrder(order, Some(t), data));
  }

  lemma NothingIsOnce()
    ensures Once([])
  {
  }

  lemma OnceIsDistinct(paths: seq<Path>)
    requires Once(paths)
    ensures Distinct([] + PathReports(paths)) == PathReports(paths)
  {
    assert [] + PathReports(paths) == PathReports(paths);
    DistinctAlready(PathReports(paths));
  }

  /** `tolerantParse`; `order` is the order in which the objects of the value list their keys. */
  method TolerantParse(schema: ValueSchema, value: Json, order: KeyOrder) returns (r: ValueResult)
    requires IsKeyOrder(order)
    ensures exists run :: EndsValueRun(value, schema, order, run, r)
    ensures AllInValue(value, r.unknownKeys)
    ensures schema(Some(value)).Accepted? ==> r.Valid? && r.data == schema(Some(value)).data
  {
    hide Pruned, Clone, Plain, Stuck, Report, Silent, Chosen, Nodes, Discarded, InputNode, RoundReport,
         PathReports, Distinct, ChosenHit, SilentOrder, IsKeyOrder;
    CloneIsWhole(value);
    ghost var run := [Clone(value)];
    var outcome := schema(Some(value));
    if outcome.Accepted? {
      var keys := PushSilent(value, Clone(value), outcome.data, order, []);
      PathsReportedOnce(value, Clone(value), outcome.data, order);
      assert EndsValueRun(value, schema, order, run, Valid(outcome.data, keys));
      return Valid(outcome.data, keys);
    }
    if !value.Obj? {
      DistinctAlready<Removed>([]);
      assert EndsValueRun(value, schema, order, run, Invalid(outcome.issues, []));
      return Invalid(outcome.issues, []);
    }
    var candidate := new Option<Tree>[1](_ => Some(Clone(value)));
    var unknownKeys := [];
    while outcome.Rejected?
      invariant candidate[0].Some? && Pruned(value, candidate[0].value)
      invariant IsValueRun(value, schema, run) && run[|run| - 1] == candidate[0].value
      invariant unknownKeys == ValueReports(schema, run)
      invariant outcome == schema(Some(Plain(candidate[0].value)))
      invariant AllInValue(value, unknownKeys)
      decreases Nodes(candidate[0].value)
    {
      ghost var t := candidate[0].value;
      assert candidate[..] == [Some(t)];
      var hit;
      hit, unknownKeys := DiscardIssues(candidate, outcome.issues, unknownKeys, false);
      if hit.None? {
        DedupedInValue(value, unknownKeys);
        var keys := DedupeUnknownKeys(unknownKeys);
        r := Invalid(outcome.issues, keys);
        assert EndsValueRun(value, schema, order, run, r);
        return;
      }
      ReportInValue(value, t, outcome.issues, hit.value);
      RoundReports([Some(t)], outcome.issues, hit.value, false);
      assert candidate[..] == After([Some(t)], hit.value);
      assert ValueRound(schema, t, candidate[0].value);
      ValueRunGrows(value, schema, run, candidate[0].value);
      run := run + [candidate[0].value];
      outcome := schema(Some(Plain(candidate[0].value)));
    }
    unknownKeys := PushSilent(value, candidate[0].value, outcome.data, order, unknownKeys);
    DedupedInValue(value, unknownKeys);
    var keys := DedupeUnknownKeys(unknownKeys);
    r := Valid(outcome.data, keys);
    assert EndsValueRun(value, schema, order, run, r);
  }
}
