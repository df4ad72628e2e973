/** Which paths the issues of a schema name, and in which order, said of the ways through the tree of issues. */
module TolerantIssues {
  import opened Wrappers
  import opened Sorting
  import opened ConfigTrees
  import opened TolerantParse

  /** One step into a union: a branch, and an issue of it. */
  datatype Turn = Turn(branch: nat, child: nat)

  /** The way leads to this issue, and its full path is `p`: every issue on it has a path, and every one but the last is
      that of a union. */
  ghost predicate Reaches(branches: seq<Branch>, prefix: Path, way: seq<Turn>, last: Issue, p: Path)
    decreases |way|
  {
    && way != [] && way[0].branch < |branches| && way[0].child < |branches[way[0].branch].issues|
    && var issue := branches[way[0].branch].issues[way[0].child];
       && issue.path.Some?
       && if |way| == 1 then last == issue && p == prefix + issue.path.value
          else issue.code == "invalid_union" && Reaches(issue.errors, prefix + issue.path.value, way[1..], last, p)
  }

  /** The way names this path: it leads there, not to keys that are unknown, and whatever lies further on is unknown
      keys. */
  ghost predicate NamesFault(branches: seq<Branch>, prefix: Path, way: seq<Turn>, p: Path)
  {
    exists last: Issue ::
      && Reaches(branches, prefix, way, last, p) && last.code != "unrecognized_keys"
      && NothingBelow(branches, prefix, way)
  }

  ghost predicate NothingBelow(branches: seq<Branch>, prefix: Path, way: seq<Turn>)
  {
    forall more: seq<Turn>, deeper: Issue, q: Path ::
      more != [] && Reaches(branches, prefix, way + more, deeper, q) ==> deeper.code == "unrecognized_keys"
  }

  /** Following this choice of a branch at every union, one comes to this issue. */
  ghost predicate ComesTo(issues: seq<Issue>, pick: Issue -> nat, way: seq<nat>, last: Issue)
    decreases |way|
  {
    && way != [] && way[0] < |issues|
    && var issue := issues[way[0]];
       if |way| == 1 then last == issue
       else issue.code == "invalid_union" && pick(issue) < |issue.errors|
            && ComesTo(issue.errors[pick(issue)].issues, pick, way[1..], last)
  }

  /** A branch can be chosen at every union so that nothing is met but unknown keys, or unions with a branch that has
      issues. */
  ghost predicate IsViable(branch: Branch)
  {
    branch.issues != [] && exists pick: Issue -> nat :: MeetsOnlyUnknown(branch.issues, pick)
  }

  ghost predicate MeetsOnlyUnknown(issues: seq<Issue>, pick: Issue -> nat)
  {
    forall way, last: Issue :: ComesTo(issues, pick, way, last) ==> IsUnknownOr(last, pick)
  }

  ghost predicate IsUnknownOr(last: Issue, pick: Issue -> nat)
  {
    || last.code == "unrecognized_keys"
    || (last.code == "invalid_union" && pick(last) < |last.errors| && last.errors[pick(last)].issues != [])
  }

  /** The way leads through the first viable branch of every union to unknown keys; its last turn tells which. */
  ghost predicate NamesUnknown(branches: seq<Branch>, prefix: Path, way: seq<Turn>, p: Path)
    decreases |way|
  {
    && |way| > 1 && way[0].branch < |branches| && way[0].child < |branches[way[0].branch].issues|
    && var issue := branches[way[0].branch].issues[way[0].child];
       && issue.path.Some?
       && var full := prefix + issue.path.value;
          if issue.code == "unrecognized_keys"
          then |way| == 2 && way[1].branch == 0 && way[1].child < |issue.keys|
               && p == full + [Name(issue.keys[way[1].child])]
          else issue.code == "invalid_union" && way[1].branch < |issue.errors| && IsViable(issue.errors[way[1].branch])
               && (forall b :: 0 <= b < way[1].branch ==> !IsViable(issue.errors[b]))
               && NamesUnknown(issue.errors, full, way[1..], p)
  }

  /** What is named: the places that are at fault, or the keys that are unknown. */
  datatype What = Faults | Keys

  ghost predicate Names(what: What, branches: seq<Branch>, prefix: Path, way: seq<Turn>, p: Path)
  {
    if what.Faults? then NamesFault(branches, prefix, way, p) else NamesUnknown(branches, prefix, way, p)
  }

  /** The first way turns off earlier. */
  ghost predicate Earlier(a: seq<Turn>, b: seq<Turn>)
    decreases |a|
  {
    a != [] && b != []
    && (|| a[0].branch < b[0].branch
        || (a[0].branch == b[0].branch && a[0].child < b[0].child)
        || (a[0] == b[0] && Earlier(a[1..], b[1..])))
  }

  /** These are all the ways that name a path, from the earliest on, each with its path. */
  ghost predicate Lists(what: What, branches: seq<Branch>, prefix: Path, ways: seq<seq<Turn>>, paths: seq<Path>)
  {
    && |ways| == |paths| && (forall i :: 0 <= i < |ways| ==> Names(what, branches, prefix, ways[i], paths[i]))
    && (forall i, j :: 0 <= i < j < |ways| ==> Earlier(ways[i], ways[j]))
    && (forall way, p :: Names(what, branches, prefix, way, p) ==> way in ways)
  }

  /** Some way names this path, or this key. */
  ghost predicate IsNamed(issues: seq<Issue>, p: Path) { exists way :: NamesFault([Branch(issues)], [], way, p) }

  ghost predicate IsUnknownKey(issues: seq<Issue>, p: Path) { exists way :: NamesUnknown([Branch(issues)], [], way, p) }

  // ----- a list of branches, taken apart

  /** The way one branch, or one issue, further on. */
  function Onward(way: seq<Turn>, branches: nat, children: nat): seq<Turn>
    requires way != []
  {
    [Turn(way[0].branch + branches, way[0].child + children)] + way[1..]
  }

  lemma OnwardOf(way: seq<Turn>, more: seq<Turn>, branches: nat, children: nat)
    requires way != []
    ensures Onward(way + more, branches, children) == Onward(way, branches, children) + more
    ensures Onward(way, branches, children)[1..] == way[1..]
  {
    assert (way + more)[1..] == way[1..] + more;
  }

  /** Two lists of branches lead to the same by these ways. */
  ghost predicate SameThere(a: seq<Branch>, b: seq<Branch>, turn: Turn, other: Turn)
  {
    && (turn.branch < |a| && turn.child < |a[turn.branch].issues|
        <==> other.branch < |b| && other.child < |b[other.branch].issues|)
    && (turn.branch < |a| && turn.child < |a[turn.branch].issues| ==>
          a[turn.branch].issues[turn.child] == b[other.branch].issues[other.child])
  }

  lemma SameReach(a: seq<Branch>, b: seq<Branch>, prefix: Path, way: seq<Turn>, other: seq<Turn>)
    requires way != [] && other != [] && way[1..] == other[1..] && SameThere(a, b, way[0], other[0])
    ensures forall last, p :: Reaches(a, prefix, way, last, p) <==> Reaches(b, prefix, other, last, p)
  {
  }

  lemma SameNames(what: What, a: seq<Branch>, b: seq<Branch>, prefix: Path, way: seq<Turn>, other: seq<Turn>, p: Path)
    requires way != [] && other != [] && way[1..] == other[1..] && SameThere(a, b, way[0], other[0])
    ensures Names(what, a, prefix, way, p) <==> Names(what, b, prefix, other, p)
  {
    hide Reaches;
    SameReach(a, b, prefix, way, other);
    forall more: seq<Turn>, deeper, q
      ensures Reaches(a, prefix, way + more, deeper, q) <==> Reaches(b, prefix, other + more, deeper, q)
    {
      assert (way + more)[1..] == way[1..] + more && (other + more)[1..] == other[1..] + more;
      SameReach(a, b, prefix, way + more, other + more);
    }
  }

  lemma EarlierOnward(a: seq<Turn>, b: seq<Turn>, branches: nat, children: nat)
    requires Earlier(a, b)
    ensures Earlier(Onward(a, branches, children), Onward(b, branches, children))
  {
    OnwardOf(a, [], branches, children);
    OnwardOf(b, [], branches, children);
  }

  function AllOnward(ways: seq<seq<Turn>>, branches: nat, children: nat): (r: seq<seq<Turn>>)
    requires forall i :: 0 <= i < |ways| ==> ways[i] != []
    ensures |r| == |ways| && forall i :: 0 <= i < |r| ==> r[i] == Onward(ways[i], branches, children)
  {
    seq(|ways|, i requires 0 <= i < |ways| => Onward(ways[i], branches, children))
  }

  lemma NamesSomewhere(what: What, branches: seq<Branch>, prefix: Path, way: seq<Turn>, p: Path)
    requires Names(what, branches, prefix, way, p)
    ensures way != [] && IsTurn(branches, way[0])
  {
  }

  lemma WaysAreSome(what: What, branches: seq<Branch>, prefix: Path, ways: seq<seq<Turn>>, paths: seq<Path>)
    requires Lists(what, branches, prefix, ways, paths)
    ensures forall i :: 0 <= i < |ways| ==>
              && ways[i] != [] && ways[i][0].branch < |branches|
              && ways[i][0].child < |branches[ways[i][0].branch].issues|
  {
    hide Names, Earlier;
    forall i | 0 <= i < |ways|
      ensures ways[i] != [] && ways[i][0].branch < |branches| && ways[i][0].child < |branches[ways[i][0].branch].issues|
    {
      NamesSomewhere(what, branches, prefix, ways[i], paths[i]);
    }
  }

  predicate IsTurn(branches: seq<Branch>, t: Turn) { t.branch < |branches| && t.child < |branches[t.branch].issues| }

  /** A list of branches is made of two: the turns into the first, and those into the second, so much further on. */
  ghost predicate MadeOf(whole: seq<Branch>, a: seq<Branch>, b: seq<Branch>, branches: nat, children: nat)
  {
    && (forall t: Turn :: IsTurn(a, t) ==> SameThere(whole, a, t, t))
    && (forall t: Turn :: IsTurn(b, t) ==> SameThere(whole, b, Turn(t.branch + branches, t.child + children), t))
    && NoOtherTurns(whole, a, b, branches, children)
    && (forall t: Turn, u: Turn :: IsTurn(a, t) && IsTurn(b, u) ==>
          t.branch < u.branch + branches || (t.branch == u.branch + branches && t.child < u.child + children))
  }

  ghost predicate NoOtherTurns(whole: seq<Branch>, a: seq<Branch>, b: seq<Branch>, branches: nat, children: nat)
  {
    forall t: Turn :: IsTurn(whole, t) ==>
      || IsTurn(a, t)
      || (&& branches <= t.branch && children <= t.child
          && IsTurn(b, Turn(t.branch - branches, t.child - children)))
  }

  lemma NamedInFirst(what: What, whole: seq<Branch>, a: seq<Branch>, b: seq<Branch>, branches: nat, children: nat,
                     prefix: Path, way: seq<Turn>, p: Path)
    requires MadeOf(whole, a, b, branches, children) && way != [] && IsTurn(a, way[0])
    ensures Names(what, whole, prefix, way, p) <==> Names(what, a, prefix, way, p)
  {
    hide Names;
    SameNames(what, whole, a, prefix, way, way, p);
  }

  lemma NamedInSecond(what: What, whole: seq<Branch>, a: seq<Branch>, b: seq<Branch>, branches: nat, children: nat,
                      prefix: Path, way: seq<Turn>, p: Path)
    requires MadeOf(whole, a, b, branches, children) && way != [] && IsTurn(b, way[0])
    ensures Names(what, whole, prefix, Onward(way, branches, children), p) <==> Names(what, b, prefix, way, p)
  {
    hide Names;
    OnwardOf(way, [], branches, children);
    SameNames(what, whole, b, prefix, Onward(way, branches, children), way, p);
  }

  /** The ways into a list made of two are those into the first, and those into the second, so much further on. */
  lemma ListsConcat(what: What, whole: seq<Branch>, a: seq<Branch>, b: seq<Branch>, branches: nat, children: nat,
                    prefix: Path, ways: seq<seq<Turn>>, paths: seq<Path>, others: seq<seq<Turn>>, rest: seq<Path>)
    requires MadeOf(whole, a, b, branches, children)
    requires Lists(what, a, prefix, ways, paths) && Lists(what, b, prefix, others, rest)
    ensures forall i :: 0 <= i < |others| ==> others[i] != []
    ensures Lists(what, whole, prefix, ways + AllOnward(others, branches, children), paths + rest)
  {
    hide Names, Earlier, MadeOf, Lists, IsTurn;
    WaysAreSome(what, a, prefix, ways, paths);
    WaysAreSome(what, b, prefix, others, rest);
    var all, both := ways + AllOnward(others, branches, children), paths + rest;
    AllName(what, whole, a, b, branches, children, prefix, ways, paths, others, rest);
    AllInOrder(what, whole, a, b, branches, children, prefix, ways, paths, others, rest);
    forall way: seq<Turn>, p: Path | Names(what, whole, prefix, way, p) ensures way in all {
      NoneMissing(what, whole, a, b, branches, children, prefix, ways, paths, others, rest, way, p);
    }
    AreLists(what, whole, prefix, all, both);
  }

  lemma AreLists(what: What, branches: seq<Branch>, prefix: Path, ways: seq<seq<Turn>>, paths: seq<Path>)
    requires |ways| == |paths| && forall i :: 0 <= i < |ways| ==> Names(what, branches, prefix, ways[i], paths[i])
    requires forall i, j :: 0 <= i < j < |ways| ==> Earlier(ways[i], ways[j])
    requires forall way, p :: Names(what, branches, prefix, way, p) ==> way in ways
    ensures Lists(what, branches, prefix, ways, paths)
  {
    hide Names, Earlier;
  }

  lemma AllName(what: What, whole: seq<Branch>, a: seq<Branch>, b: seq<Branch>, branches: nat, children: nat,
                prefix: Path, ways: seq<seq<Turn>>, paths: seq<Path>, others: seq<seq<Turn>>, rest: seq<Path>)
    requires MadeOf(whole, a, b, branches, children)
    requires Lists(what, a, prefix, ways, paths) && Lists(what, b, prefix, others, rest)
    requires forall i :: 0 <= i < |others| ==> others[i] != []
    ensures var all, both := ways + AllOnward(others, branches, children), paths + rest;
            |all| == |both| && forall i :: 0 <= i < |all| ==> Names(what, whole, prefix, all[i], both[i])
  {
    hide Names, Earlier, MadeOf, Onward;
    WaysAreSome(what, a, prefix, ways, paths);
    WaysAreSome(what, b, prefix, others, rest);
    var all, both := ways + AllOnward(others, branches, children), paths + rest;
    forall i | 0 <= i < |all| ensures Names(what, whole, prefix, all[i], both[i]) {
      if i < |ways| {
        NamedInFirst(what, whole, a, b, branches, children, prefix, ways[i], paths[i]);
      } else {
        NamedInSecond(what, whole, a, b, branches, children, prefix, others[i - |ways|], rest[i - |ways|]);
      }
    }
  }

  lemma AllInOrder(what: What, whole: seq<Branch>, a: seq<Branch>, b: seq<Branch>, branches: nat, children: nat,
                   prefix: Path, ways: seq<seq<Turn>>, paths: seq<Path>, others: seq<seq<Turn>>, rest: seq<Path>)
    requires MadeOf(whole, a, b, branches, children)
    requires Lists(what, a, prefix, ways, paths) && Lists(what, b, prefix, others, rest)
    requires forall i :: 0 <= i < |others| ==> others[i] != []
    ensures var all := ways + AllOnward(others, branches, children);
            forall i, j :: 0 <= i < j < |all| ==> Earlier(all[i], all[j])
  {
    hide Names, Earlier, SameThere;
    WaysAreSome(what, a, prefix, ways, paths);
    WaysAreSome(what, b, prefix, others, rest);
    var all := ways + AllOnward(others, branches, children);
    forall i, j | 0 <= i < j < |all| ensures Earlier(all[i], all[j]) {
      if i >= |ways| {
        EarlierOnward(others[i - |ways|], others[j - |ways|], branches, children);
      } else if j >= |ways| {
        var t, u := ways[i][0], others[j - |ways|][0];
        assert IsTurn(a, t) && IsTurn(b, u);
        TurnsOff(ways[i], all[j]);
      }
    }
  }

  lemma NoneMissing(what: What, whole: seq<Branch>, a: seq<Branch>, b: seq<Branch>, branches: nat, children: nat,
                    prefix: Path, ways: seq<seq<Turn>>, paths: seq<Path>, others: seq<seq<Turn>>, rest: seq<Path>,
                    way: seq<Turn>, p: Path)
    requires MadeOf(whole, a, b, branches, children)
    requires Lists(what, a, prefix, ways, paths) && Lists(what, b, prefix, others, rest)
    requires forall i :: 0 <= i < |others| ==> others[i] != []
    requires Names(what, whole, prefix, way, p)
    ensures way in ways + AllOnward(others, branches, children)
  {
    hide Names, Earlier, MadeOf, Lists, Onward;
    NamesSomewhere(what, whole, prefix, way, p);
    if IsTurn(a, way[0]) {
      NamedInFirst(what, whole, a, b, branches, children, prefix, way, p);
      var k := Listed(what, a, prefix, ways, paths, way, p);
      assert (ways + AllOnward(others, branches, children))[k] == way;
    } else {
      OtherTurns(whole, a, b, branches, children);
      var back := BackToSecond(whole, a, b, branches, children, way);
      NamedInSecond(what, whole, a, b, branches, children, prefix, back, p);
      var k := Listed(what, b, prefix, others, rest, back, p);
      assert AllOnward(others, branches, children)[k] == way;
      assert (ways + AllOnward(others, branches, children))[|ways| + k] == way;
    }
  }

  lemma OtherTurns(whole: seq<Branch>, a: seq<Branch>, b: seq<Branch>, branches: nat, children: nat)
    requires MadeOf(whole, a, b, branches, children)
    ensures NoOtherTurns(whole, a, b, branches, children)
  {
    hide SameThere, IsTurn;
  }

  lemma Listed(what: What, branches: seq<Branch>, prefix: Path, ways: seq<seq<Turn>>, paths: seq<Path>,
               way: seq<Turn>, p: Path)
    returns (k: nat)
    requires Lists(what, branches, prefix, ways, paths) && Names(what, branches, prefix, way, p)
    ensures k < |ways| && ways[k] == way
  {
    hide Names, Earlier;
    assert way in ways;
    k :| k < |ways| && ways[k] == way;
  }

  lemma BackToSecond(whole: seq<Branch>, a: seq<Branch>, b: seq<Branch>, branches: nat, children: nat, way: seq<Turn>)
    returns (back: seq<Turn>)
    requires NoOtherTurns(whole, a, b, branches, children)
    requires way != [] && IsTurn(whole, way[0]) && !IsTurn(a, way[0])
    ensures back != [] && IsTurn(b, back[0]) && Onward(back, branches, children) == way
  {
    hide IsTurn;
    back := [Turn(way[0].branch - branches, way[0].child - children)] + way[1..];
  }

  lemma TurnsOff(a: seq<Turn>, b: seq<Turn>)
    requires a != [] && b != []
    requires a[0].branch < b[0].branch || (a[0].branch == b[0].branch && a[0].child < b[0].child)
    ensures Earlier(a, b)
  {
  }

  // ----- the paths the issues name are those

  lemma NoneListed(what: What, branches: seq<Branch>, prefix: Path)
    requires forall t: Turn :: !IsTurn(branches, t)
    ensures Lists(what, branches, prefix, [], [])
  {
    hide Earlier, Names;
    forall way: seq<Turn>, p: Path ensures !Names(what, branches, prefix, way, p) {
      if Names(what, branches, prefix, way, p) {
        NamesSomewhere(what, branches, prefix, way, p);
      }
    }
  }

  /** A list of branches is its first one and the rest; a branch is its first issue and the rest. */
  lemma BranchesSplit(branches: seq<Branch>)
    requires branches != []
    ensures MadeOf(branches, branches[..1], branches[1..], 1, 0)
  {
  }

  lemma IssuesSplit(issues: seq<Issue>)
    requires issues != []
    ensures MadeOf([Branch(issues)], [Branch(issues[..1])], [Branch(issues[1..])], 0, 1)
  {
    var whole, a, b := [Branch(issues)], [Branch(issues[..1])], [Branch(issues[1..])];
    assert |whole| == |a| == |b| == 1;
    assert whole[0].issues == issues && a[0].issues == issues[..1] && b[0].issues == issues[1..];
    forall t: Turn | IsTurn(a, t) ensures SameThere(whole, a, t, t) {}
    forall t: Turn | IsTurn(b, t) ensures SameThere(whole, b, Turn(t.branch + 0, t.child + 1), t) {}
    forall t: Turn | IsTurn(whole, t) && !IsTurn(a, t)
      ensures 0 <= t.branch && 1 <= t.child && IsTurn(b, Turn(t.branch - 0, t.child - 1)) {}
  }

  /** Where no path is named, nothing is met but unknown keys. */
  ghost predicate Barren(branches: seq<Branch>)
  {
    forall prefix, way, last: Issue, p :: Reaches(branches, prefix, way, last, p) ==> last.code == "unrecognized_keys"
  }

  /** One way into one issue: to it, and on through it. */
  lemma IntoOne(issue: Issue, prefix: Path, way: seq<Turn>, last: Issue, p: Path)
    ensures Reaches([Branch([issue])], prefix, way, last, p) <==>
              && way != [] && way[0] == Turn(0, 0) && issue.path.Some?
              && if |way| == 1 then last == issue && p == prefix + issue.path.value
                 else issue.code == "invalid_union"
                      && Reaches(issue.errors, prefix + issue.path.value, way[1..], last, p)
  {
  }

  /** Through an issue that is a union, a path is named exactly as by its branches; its own only if they name none. */
  lemma NamedThrough(issue: Issue, prefix: Path, way: seq<Turn>, p: Path)
    requires issue.path.Some? && issue.code == "invalid_union" && |way| > 1 && way[0] == Turn(0, 0)
    ensures NamesFault([Branch([issue])], prefix, way, p) <==>
              NamesFault(issue.errors, prefix + issue.path.value, way[1..], p)
  {
    hide Reaches;
    var one, full := [Branch([issue])], prefix + issue.path.value;
    forall last, q ensures Reaches(one, prefix, way, last, q) <==> Reaches(issue.errors, full, way[1..], last, q) {
      IntoOne(issue, prefix, way, last, q);
    }
    forall more: seq<Turn>, deeper, q
      ensures Reaches(one, prefix, way + more, deeper, q) <==> Reaches(issue.errors, full, way[1..] + more, deeper, q)
    {
      assert (way + more)[1..] == way[1..] + more;
      IntoOne(issue, prefix, way + more, deeper, q);
    }
  }

  lemma NamedItself(issue: Issue, prefix: Path, p: Path)
    ensures NamesFault([Branch([issue])], prefix, [Turn(0, 0)], p) <==>
              && issue.path.Some? && issue.code != "unrecognized_keys" && p == prefix + issue.path.value
              && (issue.code == "invalid_union" ==> NothingIn(issue.errors, prefix + issue.path.value))
  {
    hide Reaches, NothingIn;
    var one, way := [Branch([issue])], [Turn(0, 0)];
    forall last, q ensures Reaches(one, prefix, way, last, q) <==>
        issue.path.Some? && last == issue && q == prefix + issue.path.value
    {
      IntoOne(issue, prefix, way, last, q);
    }
    if issue.path.Some? && issue.code != "unrecognized_keys" && p == prefix + issue.path.value {
      assert Reaches(one, prefix, way, issue, p);
      BelowItself(issue, prefix);
    }
  }

  lemma BelowItself(issue: Issue, prefix: Path)
    requires issue.path.Some?
    ensures NothingBelow([Branch([issue])], prefix, [Turn(0, 0)]) <==>
              (issue.code == "invalid_union" ==> NothingIn(issue.errors, prefix + issue.path.value))
  {
    hide NothingBelow, NothingIn;
    if NothingBelow([Branch([issue])], prefix, [Turn(0, 0)]) && issue.code == "invalid_union" {
      BelowIsIn(issue, prefix);
    }
    if issue.code == "invalid_union" ==> NothingIn(issue.errors, prefix + issue.path.value) {
      InIsBelow(issue, prefix);
    }
  }

  /** These branches lead to nothing but unknown keys. */
  ghost predicate NothingIn(branches: seq<Branch>, prefix: Path)
  {
    forall way, deeper: Issue, q :: Reaches(branches, prefix, way, deeper, q) ==> deeper.code == "unrecognized_keys"
  }

  lemma BelowIsIn(issue: Issue, prefix: Path)
    requires issue.path.Some? && issue.code == "invalid_union"
    requires NothingBelow([Branch([issue])], prefix, [Turn(0, 0)])
    ensures NothingIn(issue.errors, prefix + issue.path.value)
  {
    hide Reaches;
    var one, way, full := [Branch([issue])], [Turn(0, 0)], prefix + issue.path.value;
    forall further: seq<Turn>, deeper: Issue, q | Reaches(issue.errors, full, further, deeper, q)
      ensures deeper.code == "unrecognized_keys"
    {
      ReachesSomewhere(issue.errors, full, further, deeper, q);
      assert (way + further)[1..] == further;
      IntoOne(issue, prefix, way + further, deeper, q);
      assert Reaches(one, prefix, way + further, deeper, q);
    }
  }

  lemma InIsBelow(issue: Issue, prefix: Path)
    requires issue.path.Some?
    requires issue.code == "invalid_union" ==> NothingIn(issue.errors, prefix + issue.path.value)
    ensures NothingBelow([Branch([issue])], prefix, [Turn(0, 0)])
  {
    hide Reaches;
    var one, way := [Branch([issue])], [Turn(0, 0)];
    forall more: seq<Turn>, deeper: Issue, q | more != [] && Reaches(one, prefix, way + more, deeper, q)
      ensures deeper.code == "unrecognized_keys"
    {
      assert (way + more)[1..] == more;
      IntoOne(issue, prefix, way + more, deeper, q);
    }
  }

  lemma ReachesSomewhere(branches: seq<Branch>, prefix: Path, way: seq<Turn>, last: Issue, p: Path)
    requires Reaches(branches, prefix, way, last, p)
    ensures way != []
  {
  }

  lemma {:induction false} IssueLists(issue: Issue, prefix: Path) returns (ways: seq<seq<Turn>>)
    ensures Lists(Faults, [Branch([issue])], prefix, ways, IssuePaths(issue, prefix))
    ensures IssuePaths(issue, prefix) == [] ==> Barren([Branch([issue])])
    decreases issue
  {
    hide NamesFault, Reaches, Earlier;
    var one := [Branch([issue])];
    if issue.path.None? || issue.code == "unrecognized_keys" {
      ways := [];
      NothingNamed(issue, prefix);
    } else {
      var full := prefix + issue.path.value;
      if issue.code == "invalid_union" {
        var inner := BranchesList(issue.errors, full);
        if BranchPaths(issue.errors, full) != [] {
          ways := ThroughOne(issue, prefix, inner);
        } else {
          ways := [[Turn(0, 0)]];
          ItselfOnly(issue, prefix);
        }
      } else {
        ways := [[Turn(0, 0)]];
        ItselfOnly(issue, prefix);
      }
    }
  }

  lemma NothingNamed(issue: Issue, prefix: Path)
    requires issue.path.None? || issue.code == "unrecognized_keys"
    ensures Lists(Faults, [Branch([issue])], prefix, [], []) && Barren([Branch([issue])])
  {
    hide Reaches, Earlier, NothingBelow;
    var one := [Branch([issue])];
    forall pre, way, last, p ensures Reaches(one, pre, way, last, p) ==> last.code == "unrecognized_keys" {
      IntoOne(issue, pre, way, last, p);
    }
  }

  /** An issue that is no union, or a union that names nothing, names its own path. */
  lemma ItselfOnly(issue: Issue, prefix: Path)
    requires issue.path.Some? && issue.code != "unrecognized_keys"
    requires issue.code == "invalid_union" ==> Barren(issue.errors)
    ensures Lists(Faults, [Branch([issue])], prefix, [[Turn(0, 0)]], [prefix + issue.path.value])
  {
    hide NamesFault, Reaches, Earlier;
    var one, full := [Branch([issue])], prefix + issue.path.value;
    NamedItself(issue, prefix, full);
    forall way: seq<Turn>, p: Path | NamesFault(one, prefix, way, p) ensures way == [Turn(0, 0)] {
      NamesSomewhere(Faults, one, prefix, way, p);
      if |way| > 1 { NamedBelowBarren(issue, prefix, way, p); }
      assert way[0] == Turn(0, 0);
    }
  }

  lemma NamedBelowBarren(issue: Issue, prefix: Path, way: seq<Turn>, p: Path)
    requires issue.code == "invalid_union" ==> Barren(issue.errors)
    requires |way| > 1
    ensures !NamesFault([Branch([issue])], prefix, way, p)
  {
    hide Reaches, NothingBelow;
    forall last ensures Reaches([Branch([issue])], prefix, way, last, p) ==> last.code == "unrecognized_keys" {
      IntoOne(issue, prefix, way, last, p);
    }
  }

  lemma ThroughOne(issue: Issue, prefix: Path, inner: seq<seq<Turn>>) returns (ways: seq<seq<Turn>>)
    requires issue.path.Some? && issue.code == "invalid_union"
    requires BranchPaths(issue.errors, prefix + issue.path.value) != []
    requires var full := prefix + issue.path.value;
             Lists(Faults, issue.errors, full, inner, BranchPaths(issue.errors, full))
    ensures Lists(Faults, [Branch([issue])], prefix, ways, BranchPaths(issue.errors, prefix + issue.path.value))
  {
    hide NamesFault, Reaches, Earlier, BranchPaths;
    var one, full := [Branch([issue])], prefix + issue.path.value;
    var paths := BranchPaths(issue.errors, full);
    WaysAreSome(Faults, issue.errors, full, inner, paths);
    ways := seq(|inner|, i requires 0 <= i < |inner| => [Turn(0, 0)] + inner[i]);
    forall i | 0 <= i < |ways| ensures NamesFault(one, prefix, ways[i], paths[i]) {
      assert ways[i][1..] == inner[i];
      NamedThrough(issue, prefix, ways[i], paths[i]);
    }
    forall i, j | 0 <= i < j < |ways| ensures Earlier(ways[i], ways[j]) {
      assert ways[i][1..] == inner[i] && ways[j][1..] == inner[j];
      EarlierAfter(ways[i], ways[j]);
    }
    SomethingNamed(issue, full, inner[0], paths[0]);
    forall way: seq<Turn>, p: Path | NamesFault(one, prefix, way, p) ensures way in ways {
      NamesSomewhere(Faults, one, prefix, way, p);
      assert way[0] == Turn(0, 0);
      if |way| > 1 {
        NamedThrough(issue, prefix, way, p);
        var k := Listed(Faults, issue.errors, full, inner, paths, way[1..], p);
        assert ways[k] == way;
      } else {
        assert way == [Turn(0, 0)];
        NamedItself(issue, prefix, p);
      }
    }
  }

  lemma SomethingNamed(issue: Issue, full: Path, way: seq<Turn>, p: Path)
    requires NamesFault(issue.errors, full, way, p)
    ensures exists way, last: Issue, q :: Reaches(issue.errors, full, way, last, q) && last.code != "unrecognized_keys"
  {
    hide Reaches, NothingBelow;
  }

  lemma EarlierAfter(a: seq<Turn>, b: seq<Turn>)
    requires a != [] && b != [] && a[0] == b[0] && Earlier(a[1..], b[1..])
    ensures Earlier(a, b)
  {
  }

  lemma BarrenParts(whole: seq<Branch>, a: seq<Branch>, b: seq<Branch>, branches: nat, children: nat)
    requires MadeOf(whole, a, b, branches, children) && Barren(a) && Barren(b)
    ensures Barren(whole)
  {
    hide Reaches, SameThere;
    forall prefix, way: seq<Turn>, last: Issue, p | Reaches(whole, prefix, way, last, p)
      ensures last.code == "unrecognized_keys"
    {
      ReachesATurn(whole, prefix, way, last, p);
      if IsTurn(a, way[0]) {
        SameReach(whole, a, prefix, way, way);
      } else {
        var back := BackToSecond(whole, a, b, branches, children, way);
        OnwardOf(back, [], branches, children);
        SameReach(whole, b, prefix, way, back);
      }
    }
  }

  lemma ReachesATurn(branches: seq<Branch>, prefix: Path, way: seq<Turn>, last: Issue, p: Path)
    requires Reaches(branches, prefix, way, last, p)
    ensures way != [] && IsTurn(branches, way[0])
  {
  }

  lemma {:induction false} IssuesList(issues: seq<Issue>, prefix: Path) returns (ways: seq<seq<Turn>>)
    ensures Lists(Faults, [Branch(issues)], prefix, ways, AllIssuePaths(issues, prefix))
    ensures AllIssuePaths(issues, prefix) == [] ==> Barren([Branch(issues)])
    decreases issues
  {
    hide Lists, Barren, MadeOf, IssuePaths;
    if issues == [] {
      ways := [];
      NoneListed(Faults, [Branch(issues)], prefix);
      NoTurns([Branch(issues)]);
    } else {
      var first := IssueLists(issues[0], prefix);
      var others := IssuesList(issues[1..], prefix);
      assert issues[..1] == [issues[0]];
      IssuesSplit(issues);
      var rest := AllIssuePaths(issues[1..], prefix);
      ListsConcat(Faults, [Branch(issues)], [Branch(issues[..1])], [Branch(issues[1..])], 0, 1, prefix, first,
                  IssuePaths(issues[0], prefix), others, rest);
      ways := first + AllOnward(others, 0, 1);
      if AllIssuePaths(issues, prefix) == [] {
        BarrenParts([Branch(issues)], [Branch(issues[..1])], [Branch(issues[1..])], 0, 1);
      }
    }
  }

  lemma NoTurns(branches: seq<Branch>)
    requires forall t: Turn :: !IsTurn(branches, t)
    ensures Barren(branches)
  {
    hide Reaches;
    forall prefix, way, last: Issue, p ensures !Reaches(branches, prefix, way, last, p) {
      if Reaches(branches, prefix, way, last, p) { ReachesATurn(branches, prefix, way, last, p); }
    }
  }

  lemma {:induction false} BranchesList(branches: seq<Branch>, prefix: Path) returns (ways: seq<seq<Turn>>)
    ensures Lists(Faults, branches, prefix, ways, BranchPaths(branches, prefix))
    ensures BranchPaths(branches, prefix) == [] ==> Barren(branches)
    decreases branches
  {
    hide Lists, Barren, MadeOf, AllIssuePaths;
    if branches == [] {
      ways := [];
      NoneListed(Faults, branches, prefix);
      NoTurns(branches);
    } else {
      var first := IssuesList(branches[0].issues, prefix);
      var others := BranchesList(branches[1..], prefix);
      assert branches[..1] == [Branch(branches[0].issues)];
      BranchesSplit(branches);
      var rest := BranchPaths(branches[1..], prefix);
      ListsConcat(Faults, branches, branches[..1], branches[1..], 1, 0, prefix, first,
                  AllIssuePaths(branches[0].issues, prefix), others, rest);
      ways := first + AllOnward(others, 1, 0);
      if BranchPaths(branches, prefix) == [] { BarrenParts(branches, branches[..1], branches[1..], 1, 0); }
    }
  }

  /** The paths that issues name: one for every way that names one, from the earliest way on. */
  lemma IssuePathsIff(issues: seq<Issue>)
    ensures exists ways :: Lists(Faults, [Branch(issues)], [], ways, AllIssuePaths(issues, []))
    ensures forall p :: p in AllIssuePaths(issues, []) <==> IsNamed(issues, p)
  {
    hide IsNamed, Lists, AllIssuePaths;
    var ways := IssuesList(issues, []);
    var paths := AllIssuePaths(issues, []);
    forall p ensures p in paths <==> IsNamed(issues, p) { PathListed(issues, ways, paths, p); }
  }

  lemma PathListed(issues: seq<Issue>, ways: seq<seq<Turn>>, paths: seq<Path>, p: Path)
    requires Lists(Faults, [Branch(issues)], [], ways, paths)
    ensures p in paths <==> IsNamed(issues, p)
  {
    hide NamesFault, Earlier;
    if p in paths {
      var i :| 0 <= i < |paths| && paths[i] == p;
      assert Names(Faults, [Branch(issues)], [], ways[i], paths[i]);
    }
    if way :| NamesFault([Branch(issues)], [], way, p) {
      assert Names(Faults, [Branch(issues)], [], way, p);
      var k := Listed(Faults, [Branch(issues)], [], ways, paths, way, p);
      assert Names(Faults, [Branch(issues)], [], ways[k], paths[k]);
      OnePath([Branch(issues)], [], way, p, paths[k]);
    }
  }

  /** A way names one path. */
  lemma OnePath(branches: seq<Branch>, prefix: Path, way: seq<Turn>, p: Path, q: Path)
    requires NamesFault(branches, prefix, way, p) && NamesFault(branches, prefix, way, q)
    ensures p == q
  {
    hide NothingBelow;
    var last: Issue :| Reaches(branches, prefix, way, last, p) && last.code != "unrecognized_keys";
    var other: Issue :| Reaches(branches, prefix, way, other, q) && other.code != "unrecognized_keys";
    OneEnd(branches, prefix, way, last, p, other, q);
  }

  lemma {:induction false} OneEnd(branches: seq<Branch>, prefix: Path, way: seq<Turn>, last: Issue, p: Path,
                                  other: Issue, q: Path)
    requires Reaches(branches, prefix, way, last, p) && Reaches(branches, prefix, way, other, q)
    ensures last == other && p == q
    decreases |way|
  {
    if |way| > 1 {
      var issue := branches[way[0].branch].issues[way[0].child];
      OneEnd(issue.errors, prefix + issue.path.value, way[1..], last, p, other, q);
    }
  }

  // ----- viable branches

  /** The first viable branch of a union. */
  function FirstViable(branches: seq<Branch>): (b: nat)
    ensures b <= |branches| && forall c :: 0 <= c < b ==> !Viable(branches[c])
    ensures b < |branches| ==> Viable(branches[b])
  {
    if branches == [] || Viable(branches[0]) then 0 else 1 + FirstViable(branches[1..])
  }

  function FirstChoice(issue: Issue): nat { FirstViable(issue.errors) }

  lemma {:induction false} FirstChoiceMeets(issues: seq<Issue>, way: seq<nat>, last: Issue)
    requires forall i :: 0 <= i < |issues| ==> OnlyUnknown(issues[i])
    requires ComesTo(issues, FirstChoice, way, last)
    ensures IsUnknownOr(last, FirstChoice)
    decreases |way|
  {
    var issue := issues[way[0]];
    assert OnlyUnknown(issue);
    if issue.code == "invalid_union" {
      assert Viable(issue.errors[FirstChoice(issue)]);
      if |way| > 1 { FirstChoiceMeets(issue.errors[FirstChoice(issue)].issues, way[1..], last); }
    }
  }

  lemma {:induction false} MeetsOnlyUnknownSo(issue: Issue, pick: Issue -> nat)
    requires MeetsOnlyUnknown([issue], pick)
    ensures OnlyUnknown(issue)
    decreases issue
  {
    hide ComesTo;
    OneStep(issue, pick, [0], issue);
    if issue.code != "unrecognized_keys" {
      var branch := issue.errors[pick(issue)];
      forall i | 0 <= i < |branch.issues| ensures OnlyUnknown(branch.issues[i]) {
        forall way, last: Issue | ComesTo([branch.issues[i]], pick, way, last) ensures IsUnknownOr(last, pick) {
          OneFurther(branch.issues, pick, way, last, i);
          OneStep(issue, pick, [0, i] + way[1..], last);
          assert ([0, i] + way[1..])[1..] == [i] + way[1..];
        }
        MeetsOnlyUnknownSo(branch.issues[i], pick);
      }
    }
  }

  lemma OneStep(issue: Issue, pick: Issue -> nat, way: seq<nat>, last: Issue)
    requires way != [] && way[0] == 0
    ensures ComesTo([issue], pick, way, last)
            <==> if |way| == 1 then last == issue
                 else issue.code == "invalid_union" && pick(issue) < |issue.errors|
                      && ComesTo(issue.errors[pick(issue)].issues, pick, way[1..], last)
  {
  }

  lemma OneFurther(issues: seq<Issue>, pick: Issue -> nat, way: seq<nat>, last: Issue, i: nat)
    requires i < |issues| && ComesTo([issues[i]], pick, way, last)
    ensures way != [] && ComesTo(issues, pick, [i] + way[1..], last)
  {
    assert ([i] + way[1..])[1..] == way[1..];
  }

  /** A branch is viable exactly if there is such a choice. */
  lemma ViableIff(branch: Branch)
    ensures Viable(branch) <==> IsViable(branch)
  {
    hide ComesTo, IsUnknownOr, OnlyUnknown;
    if Viable(branch) {
      forall way, last: Issue | ComesTo(branch.issues, FirstChoice, way, last) ensures IsUnknownOr(last, FirstChoice) {
        FirstChoiceMeets(branch.issues, way, last);
      }
      assert MeetsOnlyUnknown(branch.issues, FirstChoice);
    }
    if IsViable(branch) {
      var pick: Issue -> nat :| MeetsOnlyUnknown(branch.issues, pick);
      forall i | 0 <= i < |branch.issues| ensures OnlyUnknown(branch.issues[i]) {
        forall way, last: Issue | ComesTo([branch.issues[i]], pick, way, last) ensures IsUnknownOr(last, pick) {
          OneFurther(branch.issues, pick, way, last, i);
        }
        MeetsOnlyUnknownSo(branch.issues[i], pick);
      }
    }
  }

  // ----- the unknown keys are those

  lemma IntoOneForKeys(issue: Issue, prefix: Path, way: seq<Turn>, p: Path)
    ensures NamesUnknown([Branch([issue])], prefix, way, p) <==>
              && |way| > 1 && way[0] == Turn(0, 0) && issue.path.Some?
              && var full := prefix + issue.path.value;
                 if issue.code == "unrecognized_keys"
                 then |way| == 2 && way[1].branch == 0 && way[1].child < |issue.keys|
                      && p == full + [Name(issue.keys[way[1].child])]
                 else issue.code == "invalid_union" && way[1].branch < |issue.errors|
                      && way[1].branch == FirstViable(issue.errors) && NamesUnknown(issue.errors, full, way[1..], p)
  {
    hide Viable, IsViable;
    if |way| > 1 {
      forall b | 0 <= b < |issue.errors| ensures Viable(issue.errors[b]) <==> IsViable(issue.errors[b]) {
        ViableIff(issue.errors[b]);
      }
    }
  }

  lemma {:induction false} FirstViablePaths(branches: seq<Branch>, prefix: Path)
    ensures var b := FirstViable(branches);
            ViablePaths(branches, prefix)
            == if b < |branches| then UnknownPaths(branches[b].issues, prefix) else []
  {
    hide UnknownPaths, Viable;
    if branches != [] && !Viable(branches[0]) { FirstViablePaths(branches[1..], prefix); }
  }

  lemma KeysListed(issue: Issue, prefix: Path) returns (ways: seq<seq<Turn>>)
    requires issue.path.Some? && issue.code == "unrecognized_keys"
    ensures Lists(Keys, [Branch([issue])], prefix, ways, UnknownPaths([issue], prefix))
  {
    hide NamesUnknown;
    ways := seq(|issue.keys|, i requires 0 <= i < |issue.keys| => [Turn(0, 0), Turn(0, i)]);
    var one, paths := [Branch([issue])], UnknownPaths([issue], prefix);
    assert UnknownPaths([], prefix) == [];
    forall i | 0 <= i < |ways| ensures Names(Keys, one, prefix, ways[i], paths[i]) {
      IntoOneForKeys(issue, prefix, ways[i], paths[i]);
    }
    forall way: seq<Turn>, p: Path | Names(Keys, one, prefix, way, p) ensures way in ways {
      IntoOneForKeys(issue, prefix, way, p);
      assert way == ways[way[1].child];
    }
    forall i, j | 0 <= i < j < |ways| ensures Earlier(ways[i], ways[j]) {
      EarlierAfter(ways[i], ways[j]) by { assert ways[i][1..] == [Turn(0, i)] && ways[j][1..] == [Turn(0, j)]; }
    }
  }

  lemma NoKeysListed(issue: Issue, prefix: Path)
    requires issue.path.None? || (issue.code != "unrecognized_keys"
                                  && (issue.code == "invalid_union" ==> FirstViable(issue.errors) == |issue.errors|))
    ensures UnknownPaths([issue], prefix) == [] && Lists(Keys, [Branch([issue])], prefix, [], [])
  {
    hide NamesUnknown, FirstViable, ViablePaths;
    assert UnknownPaths([], prefix) == [];
    if issue.path.Some? { FirstViablePaths(issue.errors, prefix + issue.path.value); }
    forall way: seq<Turn>, p: Path ensures !Names(Keys, [Branch([issue])], prefix, way, p) {
      IntoOneForKeys(issue, prefix, way, p);
    }
  }

  /** The ways into one branch, as ways into the list it is in. */
  lemma InBranch(branches: seq<Branch>, b: nat, prefix: Path, way: seq<Turn>, p: Path)
    requires b < |branches| && way != []
    ensures way[0].branch == b ==>
              (NamesUnknown(branches, prefix, way, p)
               <==> NamesUnknown([branches[b]], prefix, [Turn(0, way[0].child)] + way[1..], p))
  {
    if way[0].branch == b {
      var other := [Turn(0, way[0].child)] + way[1..];
      SameNames(Keys, branches, [branches[b]], prefix, way, other, p);
    }
  }

  lemma ViableListed(issue: Issue, prefix: Path, inner: seq<seq<Turn>>) returns (ways: seq<seq<Turn>>)
    requires issue.path.Some? && issue.code == "invalid_union"
    requires var b, full := FirstViable(issue.errors), prefix + issue.path.value;
             && b < |issue.errors|
             && Lists(Keys, [issue.errors[b]], full, inner, UnknownPaths(issue.errors[b].issues, full))
    ensures Lists(Keys, [Branch([issue])], prefix, ways, UnknownPaths([issue], prefix))
  {
    hide NamesUnknown, FirstViable, ViablePaths, Earlier;
    var b, full, one := FirstViable(issue.errors), prefix + issue.path.value, [Branch([issue])];
    var paths := UnknownPaths(issue.errors[b].issues, full);
    FirstViablePaths(issue.errors, full);
    assert UnknownPaths([], prefix) == [];
    assert UnknownPaths([issue], prefix) == paths;
    WaysAreSome(Keys, [issue.errors[b]], full, inner, paths);
    ways := seq(|inner|, i requires 0 <= i < |inner| => [Turn(0, 0)] + Onward(inner[i], b, 0));
    forall i | 0 <= i < |ways| ensures Names(Keys, one, prefix, ways[i], paths[i]) {
      assert Names(Keys, [issue.errors[b]], full, inner[i], paths[i]);
      ThroughViable(issue, prefix, ways[i], inner[i], paths[i]);
    }
    forall i, j | 0 <= i < j < |ways| ensures Earlier(ways[i], ways[j]) {
      EarlierOnward(inner[i], inner[j], b, 0);
      assert ways[i][1..] == Onward(inner[i], b, 0) && ways[j][1..] == Onward(inner[j], b, 0);
      EarlierAfter(ways[i], ways[j]);
    }
    forall way: seq<Turn>, p: Path | Names(Keys, one, prefix, way, p) ensures way in ways {
      IntoOneForKeys(issue, prefix, way, p);
      var back := [Turn(0, way[1].child)] + way[2..];
      assert way == [Turn(0, 0)] + Onward(back, b, 0);
      ThroughViable(issue, prefix, way, back, p);
      var k := Listed(Keys, [issue.errors[b]], full, inner, paths, back, p);
      assert ways[k] == way;
    }
  }

  lemma ThroughViable(issue: Issue, prefix: Path, way: seq<Turn>, inner: seq<Turn>, p: Path)
    requires issue.path.Some? && issue.code == "invalid_union" && FirstViable(issue.errors) < |issue.errors|
    requires inner != [] && inner[0].branch == 0 && way == [Turn(0, 0)] + Onward(inner, FirstViable(issue.errors), 0)
    ensures NamesUnknown([Branch([issue])], prefix, way, p)
            <==> NamesUnknown([issue.errors[FirstViable(issue.errors)]], prefix + issue.path.value, inner, p)
  {
    hide NamesUnknown, FirstViable;
    IntoOneForKeys(issue, prefix, way, p);
    var b := FirstViable(issue.errors);
    OnwardOf(inner, [], b, 0);
    assert way[1..] == Onward(inner, b, 0);
    InBranch(issue.errors, b, prefix + issue.path.value, way[1..], p);
    assert [Turn(0, way[1..][0].child)] + way[1..][1..] == inner;
  }

  lemma {:induction false} UnknownLists(issues: seq<Issue>, prefix: Path) returns (ways: seq<seq<Turn>>)
    ensures Lists(Keys, [Branch(issues)], prefix, ways, UnknownPaths(issues, prefix))
    decreases issues
  {
    hide Lists, MadeOf;
    if issues == [] {
      ways := [];
      NoneListed(Keys, [Branch(issues)], prefix);
    } else {
      var first := UnknownOfOne(issues, prefix);
      var others := UnknownLists(issues[1..], prefix);
      assert issues[..1] == [issues[0]];
      IssuesSplit(issues);
      UnknownSplit(issues, prefix);
      ListsConcat(Keys, [Branch(issues)], [Branch(issues[..1])], [Branch(issues[1..])], 0, 1, prefix, first,
                  UnknownPaths([issues[0]], prefix), others, UnknownPaths(issues[1..], prefix));
      ways := first + AllOnward(others, 0, 1);
    }
  }

  lemma {:induction false} UnknownOfOne(issues: seq<Issue>, prefix: Path) returns (ways: seq<seq<Turn>>)
    requires issues != []
    ensures Lists(Keys, [Branch([issues[0]])], prefix, ways, UnknownPaths([issues[0]], prefix))
    decreases issues, 0
  {
    hide Lists, FirstViable, UnknownPaths;
    var issue := issues[0];
    if issue.path.Some? && issue.code == "unrecognized_keys" {
      ways := KeysListed(issue, prefix);
    } else if issue.path.Some? && issue.code == "invalid_union" && FirstViable(issue.errors) < |issue.errors| {
      var branch := issue.errors[FirstViable(issue.errors)];
      var inner := UnknownLists(branch.issues, prefix + issue.path.value);
      ways := ViableListed(issue, prefix, inner);
    } else {
      ways := [];
      NoKeysListed(issue, prefix);
    }
  }

  lemma UnknownSplit(issues: seq<Issue>, prefix: Path)
    requires issues != []
    ensures UnknownPaths(issues, prefix) == UnknownPaths([issues[0]], prefix) + UnknownPaths(issues[1..], prefix)
  {
    hide ViablePaths;
    assert UnknownPaths([issues[0]][1..], prefix) == [];
  }

  /** The keys the schema does not know: one for every way that names one, from the earliest way on. */
  lemma UnknownPathsIff(issues: seq<Issue>)
    ensures exists ways :: Lists(Keys, [Branch(issues)], [], ways, UnknownPaths(issues, []))
    ensures forall p :: p in UnknownPaths(issues, []) <==> IsUnknownKey(issues, p)
  {
    hide IsUnknownKey, Lists, UnknownPaths;
    var ways := UnknownLists(issues, []);
    var paths := UnknownPaths(issues, []);
    forall p ensures p in paths <==> IsUnknownKey(issues, p) { KeyListed(issues, ways, paths, p); }
  }

  lemma KeyListed(issues: seq<Issue>, ways: seq<seq<Turn>>, paths: seq<Path>, p: Path)
    requires Lists(Keys, [Branch(issues)], [], ways, paths)
    ensures p in paths <==> IsUnknownKey(issues, p)
  {
    hide NamesUnknown, Earlier;
    if p in paths {
      var i :| 0 <= i < |paths| && paths[i] == p;
      assert Names(Keys, [Branch(issues)], [], ways[i], paths[i]);
    }
    if way :| NamesUnknown([Branch(issues)], [], way, p) {
      assert Names(Keys, [Branch(issues)], [], way, p);
      var k := Listed(Keys, [Branch(issues)], [], ways, paths, way, p);
      assert Names(Keys, [Branch(issues)], [], ways[k], paths[k]);
      OneKey([Branch(issues)], [], way, p, paths[k]);
    }
  }

  lemma {:induction false} OneKey(branches: seq<Branch>, prefix: Path, way: seq<Turn>, p: Path, q: Path)
    requires NamesUnknown(branches, prefix, way, p) && NamesUnknown(branches, prefix, way, q)
    ensures p == q
    decreases |way|
  {
    hide IsViable;
    var issue := branches[way[0].branch].issues[way[0].child];
    if issue.code != "unrecognized_keys" { OneKey(issue.errors, prefix + issue.path.value, way[1..], p, q); }
  }

  // ----- what is discarded for it

  /** A path that leads to something and is named outweighs all shorter ones: what is discarded is named too and no
      shorter, unless it is an unknown key. */
  lemma NamedOutweighsShorter(trees: Trees, issues: seq<Issue>, hit: Hit, p: Path)
    requires Chosen(trees, issues, hit)
    requires forall key :: IsUnknownKey(issues, key) ==> NoTargetAt(trees, key)
    requires IsNamed(issues, p) && !NoTargetAt(trees, p)
    ensures |hit.path| >= |p| && Leads(trees, hit) && IsNamed(issues, hit.path)
  {
    hide IsUnknownKey, IsNamed, NoTargetAt, Chosen, UnknownPaths, AllIssuePaths, HasTarget;
    IssuePathsIff(issues);
    UnknownPathsIff(issues);
    ChosenIsDeepest(trees, issues, hit);
    assert p in AllIssuePaths(issues, []);
    assert !NoTarget(trees, AllIssuePaths(issues, []));
    forall i | 0 <= i < |UnknownPaths(issues, [])| ensures NoTargetAt(trees, UnknownPaths(issues, [])[i]) {
      assert UnknownPaths(issues, [])[i] in UnknownPaths(issues, []);
    }
  }
}
