/** The trees a configuration is pruned in: every array remembers where its elements stood in the input. */
module ConfigTrees {
  import opened Wrappers
  import opened Text
  import opened JsonValues

  /** A path segment: a name, an integer, or another number known by its printed form. */
  datatype Seg = Name(s: string) | Index(n: int) | Fractional(printed: string)

  type Path = seq<Seg>

  /** `String(segment)` */
  function SegText(seg: Seg): string
  {
    match seg
    case Name(s) => s
    case Index(n) => if n < 0 then "-" + Decimal(-n) else Decimal(n)
    case Fractional(printed) => printed
  }

  datatype Tree =
    | Leaf(v: Json)
    | List(items: seq<Tree>, origin: seq<nat>)
    | Record(fields: map<string, Tree>)

  // ----- from a value to its tree and back

  /** `cloneValue`, with every element at its own index */
  function Clone(v: Json): Tree
  {
    match v
    case Arr(items) => List(seq(|items|, i requires 0 <= i < |items| => Clone(items[i])), seq(|items|, i => i))
    case Obj(fields) => Record(map k | k in fields :: Clone(fields[k]))
    case _ => Leaf(v)
  }

  /** The value a tree stands for. */
  function Plain(t: Tree): Json
  {
    match t
    case Leaf(v) => v
    case List(items, _) => Arr(seq(|items|, i requires 0 <= i < |items| => Plain(items[i])))
    case Record(fields) => Obj(map k | k in fields :: Plain(fields[k]))
  }

  predicate Increasing(s: seq<nat>) { forall i, j :: 0 <= i < j < |s| ==> s[i] < s[j] }

  /** The tree is the input with only subtrees deleted: elements stay in order, and each array's index list has one
      entry for each of them, which names its place in the input. */
  predicate Pruned(v: Json, t: Tree)
    decreases t
  {
    match t
    case Leaf(w) => v == w && !v.Arr? && !v.Obj?
    case List(items, origin) =>
      && v.Arr? && |origin| == |items| && Increasing(origin)
      && (forall i :: 0 <= i < |origin| ==> origin[i] < |v.items|)
      && forall i :: 0 <= i < |items| ==> Pruned(v.items[origin[i]], items[i])
    case Record(fields) =>
      && v.Obj? && fields.Keys <= v.fields.Keys
      && forall k :: k in fields ==> Pruned(v.fields[k], fields[k])
  }

  lemma {:induction false} CloneIsWhole(v: Json)
    ensures Pruned(v, Clone(v)) && Plain(Clone(v)) == v
  {
    match v
    case Arr(items) =>
      forall i | 0 <= i < |items| ensures Pruned(items[i], Clone(items[i])) && Plain(Clone(items[i])) == items[i] {
        CloneIsWhole(items[i]);
      }
    case Obj(fields) =>
      forall k | k in fields ensures Pruned(fields[k], Clone(fields[k])) && Plain(Clone(fields[k])) == fields[k] {
        CloneIsWhole(fields[k]);
      }
    case _ =>
  }

  // ----- paths

  /** `getChild` */
  function Child(t: Tree, seg: Seg): Option<Tree>
  {
    match t
    case Leaf(_) => None
    case List(items, _) => if seg.Index? && 0 <= seg.n < |items| then Some(items[seg.n]) else None
    case Record(fields) => if SegText(seg) in fields then Some(fields[SegText(seg)]) else None
  }

  function Node(t: Tree, path: Path): Option<Tree>
    decreases |path|
  {
    if path == [] then Some(t)
    else
      match Child(t, path[0])
      case Some(c) => Node(c, path[1..])
      case None => None
  }

  /** There is something at the end of a path that has an end. */
  predicate HasTarget(t: Option<Tree>, path: Path) { path != [] && t.Some? && Node(t.value, path).Some? }

  /** The node of the input itself. */
  function InputNode(v: Json, path: Path): Option<Json>
    decreases |path|
  {
    if path == [] then Some(v)
    else if v.Arr? && path[0].Index? && 0 <= path[0].n < |v.items| then InputNode(v.items[path[0].n], path[1..])
    else if v.Obj? && SegText(path[0]) in v.fields then InputNode(v.fields[SegText(path[0])], path[1..])
    else None
  }

  /** The path with every index of an array replaced by the index list's entry, where there is one. */
  function OriginalPath(t: Option<Tree>, path: Path): Path
    decreases |path|
  {
    if path == [] then []
    else if t.None? then [path[0]] + OriginalPath(None, path[1..])
    else if t.value.List? && path[0].Index? && 0 <= path[0].n < |t.value.origin| then
      [Index(t.value.origin[path[0].n])] + OriginalPath(Child(t.value, path[0]), path[1..])
    else [path[0]] + OriginalPath(Child(t.value, path[0]), path[1..])
  }

  /** Walking a path, keeping the original one: the loop agrees with the recursion. */
  method OriginalPathAtValue(t: Option<Tree>, path: Path) returns (originalPath: Path)
    ensures originalPath == OriginalPath(t, path)
  {
    originalPath := [];
    var current := t;
    for i := 0 to |path|
      invariant originalPath + OriginalPath(current, path[i..]) == OriginalPath(t, path)
    {
      var segment := path[i];
      assert path[i..][0] == segment && path[i..][1..] == path[i + 1..];
      if current.Some? && current.value.List? && segment.Index? && 0 <= segment.n < |current.value.origin| {
        originalPath := originalPath + [Index(current.value.origin[segment.n])];
      } else {
        originalPath := originalPath + [segment];
      }
      current := if current.Some? then Child(current.value, segment) else None;
    }
    assert originalPath + [] == originalPath;
  }

  /** The parent of a path's end, if there is something at that end. */
  method ParentAtPath(t: Option<Tree>, path: Path) returns (parent: Option<Tree>)
    ensures parent.Some? <==> HasTarget(t, path)
    ensures parent.Some? ==> Node(t.value, path[..|path| - 1]) == parent && Child(parent.value, path[|path| - 1]).Some?
  {
    if path == [] || t.None? { return None; }
    var last := |path| - 1;
    var current := t.value;
    for i := 0 to last
      invariant Node(current, path[i..]) == Node(t.value, path)
      invariant Node(current, path[i..last]) == Node(t.value, path[..last])
    {
      var child := Child(current, path[i]);
      assert path[i..][1..] == path[i + 1..] && path[i..last][1..] == path[i + 1..last];
      if child.None? { return None; }
      current := child.value;
    }
    assert path[last..] == [path[last]] && path[last..][1..] == [];
    if Child(current, path[last]).None? { return None; }
    return Some(current);
  }

  /** A node still present is what is left of the input's node at its original path. */
  lemma {:induction false} OriginalPathIsTrue(v: Json, t: Tree, path: Path)
    requires Pruned(v, t) && Node(t, path).Some?
    ensures InputNode(v, OriginalPath(Some(t), path)).Some?
    ensures Pruned(InputNode(v, OriginalPath(Some(t), path)).value, Node(t, path).value)
    ensures InputNode(v, NodeName(t, path)) == InputNode(v, OriginalPath(Some(t), path))
    decreases |path|
  {
    if path != [] {
      var original := OriginalPath(Some(t), path);
      var c := Child(t, path[0]).value;
      assert original[1..] == OriginalPath(Some(c), path[1..]);
      assert NodeName(t, path)[1..] == NodeName(c, path[1..]);
      if t.List? {
        OriginalPathIsTrue(v.items[t.origin[path[0].n]], c, path[1..]);
      } else {
        OriginalPathIsTrue(v.fields[SegText(path[0])], c, path[1..]);
      }
    }
  }

  // ----- which nodes are left

  /** An element's index in the input, as far as the index list knows it. */
  function ElementName(origin: seq<nat>, i: nat): Seg { Index(if i < |origin| then origin[i] else i) }

  /** The original paths of all nodes of a tree, an object's members by name. */
  function Nodes(t: Tree): set<Path>
  {
    match t
    case Leaf(_) => {[]}
    case List(items, origin) =>
      {[]} + set i: nat, q | i < |items| && q in Nodes(items[i]) :: [ElementName(origin, i)] + q
    case Record(fields) => {[]} + set k, q | k in fields && q in Nodes(fields[k]) :: [Name(k)] + q
  }

  /** The original path of a node, an object's members by name. */
  function NodeName(t: Tree, path: Path): Path
    requires Node(t, path).Some?
    decreases |path|
  {
    if path == [] then []
    else
      var c := Child(t, path[0]).value;
      var seg := if t.Record? then Name(SegText(path[0]))
                 else ElementName(t.origin, path[0].n);
      [seg] + NodeName(c, path[1..])
  }

  /** `splice(i, 1)` */
  function Without<T>(s: seq<T>, i: nat): (r: seq<T>)
    requires i < |s|
    ensures |r| == |s| - 1 && forall j :: 0 <= j < |r| ==> r[j] == s[if j < i then j else j + 1]
  {
    s[..i] + s[i + 1..]
  }

  /** Deleting what is at the end of a path. */
  function Discarded(t: Tree, path: Path): Tree
    requires HasTarget(Some(t), path)
    decreases |path|
  {
    match t
    case List(items, origin) =>
      var i := path[0].n;
      if |path| == 1 then List(Without(items, i), if i < |origin| then Without(origin, i) else origin)
      else List(items[i := Discarded(items[i], path[1..])], origin)
    case Record(fields) =>
      var k := SegText(path[0]);
      if |path| == 1 then Record(fields - {k})
      else Record(fields[k := Discarded(fields[k], path[1..])])
  }

  /** The tree stays a pruning of the input. */
  lemma {:induction false} DiscardKeepsPruned(v: Json, t: Tree, path: Path)
    requires Pruned(v, t) && HasTarget(Some(t), path)
    ensures Pruned(v, Discarded(t, path))
    decreases |path|
  {
    hide Pruned;
    DiscardStep(t, path);
    if t.List? {
      var i := path[0].n;
      if |path| == 1 {
        PrunedWithout(v, t.items, t.origin, i);
      } else {
        ElementPruned(v, t.items, t.origin, i);
        DiscardKeepsPruned(v.items[t.origin[i]], t.items[i], path[1..]);
        PrunedElement(v, t.items, t.origin, i, Discarded(t.items[i], path[1..]));
      }
    } else {
      var k := SegText(path[0]);
      FieldPruned(v, t.fields, k);
      if |path| > 1 { DiscardKeepsPruned(v.fields[k], t.fields[k], path[1..]); }
      PrunedField(v, t.fields, k, if |path| == 1 then None else Some(Discarded(t.fields[k], path[1..])));
    }
  }

  lemma DiscardStep(t: Tree, path: Path)
    requires HasTarget(Some(t), path)
    ensures t.List? || t.Record?
    ensures Child(t, path[0]).Some? && (|path| > 1 ==> HasTarget(Child(t, path[0]), path[1..]))
  {
  }

  lemma PrunedWithout(v: Json, items: seq<Tree>, origin: seq<nat>, i: nat)
    requires Pruned(v, List(items, origin)) && i < |items|
    ensures i < |origin| && Pruned(v, List(Without(items, i), Without(origin, i)))
  {
  }

  lemma ElementPruned(v: Json, items: seq<Tree>, origin: seq<nat>, i: nat)
    requires Pruned(v, List(items, origin)) && i < |items|
    ensures v.Arr? && i < |origin| && origin[i] < |v.items| && Pruned(v.items[origin[i]], items[i])
  {
  }

  lemma PrunedElement(v: Json, items: seq<Tree>, origin: seq<nat>, i: nat, t: Tree)
    requires Pruned(v, List(items, origin)) && i < |items| && v.Arr? && i < |origin| && origin[i] < |v.items|
    requires Pruned(v.items[origin[i]], t)
    ensures Pruned(v, List(items[i := t], origin))
  {
  }

  lemma FieldPruned(v: Json, fields: map<string, Tree>, k: string)
    requires Pruned(v, Record(fields)) && k in fields
    ensures v.Obj? && k in v.fields && Pruned(v.fields[k], fields[k])
  {
  }

  lemma PrunedField(v: Json, fields: map<string, Tree>, k: string, t: Option<Tree>)
    requires Pruned(v, Record(fields)) && k in fields
    requires v.Obj? && k in v.fields && (t.Some? ==> Pruned(v.fields[k], t.value))
    ensures Pruned(v, Record(if t.Some? then fields[k := t.value] else fields - {k}))
  {
  }

  /** The child of a list that stood at an index in the input, the member of a record with a name. */
  predicate IsUnder(t: Tree, seg: Seg, c: Tree)
  {
    match t
    case Leaf(_) => false
    case List(items, origin) => seg.Index?
        && exists i: nat :: i < |items| && i < |origin| && origin[i] == seg.n && items[i] == c
    case Record(fields) => seg.Name? && seg.s in fields && fields[seg.s] == c
  }

  lemma NodesUnder(v: Json, t: Tree, seg: Seg, q: Path)
    requires Pruned(v, t)
    ensures [seg] + q in Nodes(t) <==> exists c :: IsUnder(t, seg, c) && q in Nodes(c)
  {
    var whole := [seg] + q;
    assert whole != [] && whole[0] == seg && whole[1..] == q;
    match t
    case Leaf(_) =>
    case List(items, origin) =>
      if whole in Nodes(t) {
        var i: nat, r :| i < |items| && r in Nodes(items[i]) && [Index(origin[i])] + r == whole;
        assert r == whole[1..] && IsUnder(t, seg, items[i]);
      }
      if c :| IsUnder(t, seg, c) && q in Nodes(c) {
        var i: nat :| i < |items| && i < |origin| && origin[i] == seg.n && items[i] == c;
        assert [Index(origin[i])] + q == whole;
      }
    case Record(fields) =>
      if whole in Nodes(t) {
        var k, r :| k in fields && r in Nodes(fields[k]) && [Name(k)] + r == whole;
        assert r == whole[1..] && IsUnder(t, seg, fields[k]);
      }
      if c :| IsUnder(t, seg, c) && q in Nodes(c) {
        assert [Name(seg.s)] + q == whole;
      }
  }

  lemma RootIsNode(t: Tree)
    ensures [] in Nodes(t)
  {
  }

  /** The node a path enters is the only one with its name. */
  lemma NamesAreUnique(v: Json, t: Tree, path: Path, c: Tree)
    requires Pruned(v, t) && HasTarget(Some(t), path)
    ensures IsUnder(t, NodeName(t, path)[0], c) <==> Child(t, path[0]) == Some(c)
  {
  }

  /** A discard leaves the other children as they are. */
  lemma UnderDiscarded(v: Json, t: Tree, path: Path, seg: Seg, d: Tree)
    requires Pruned(v, t) && HasTarget(Some(t), path)
    ensures IsUnder(Discarded(t, path), seg, d)
            <==> if seg == NodeName(t, path)[0] then |path| > 1 && d == Discarded(Child(t, path[0]).value, path[1..])
                else IsUnder(t, seg, d)
  {
    hide Pruned;
    if t.List? {
      ElementPruned(v, t.items, t.origin, path[0].n);
      OriginIncreases(v, t);
      if |path| == 1 {
        UnderWithout(t.items, t.origin, path[0].n, seg, d);
      } else {
        UnderReplaced(t.items, t.origin, path[0].n, Discarded(t.items[path[0].n], path[1..]), seg, d);
      }
    }
  }

  lemma OriginIncreases(v: Json, t: Tree)
    requires Pruned(v, t) && t.List?
    ensures |t.items| == |t.origin| && Increasing(t.origin)
  {
  }

  lemma UnderWithout(items: seq<Tree>, origin: seq<nat>, i: nat, seg: Seg, d: Tree)
    requires |items| == |origin| && Increasing(origin) && i < |items|
    ensures IsUnder(List(Without(items, i), Without(origin, i)), seg, d)
            <==> seg != Index(origin[i]) && IsUnder(List(items, origin), seg, d)
  {
    if seg.Index? && seg.n != origin[i] && IsUnder(List(items, origin), seg, d) {
      var j: nat :| j < |items| && j < |origin| && origin[j] == seg.n && items[j] == d;
      var k := if j < i then j else j - 1;
      assert Without(origin, i)[k] == seg.n && Without(items, i)[k] == d;
    }
  }

  lemma UnderReplaced(items: seq<Tree>, origin: seq<nat>, i: nat, t: Tree, seg: Seg, d: Tree)
    requires |items| == |origin| && Increasing(origin) && i < |items|
    ensures IsUnder(List(items[i := t], origin), seg, d)
            <==> if seg == Index(origin[i]) then d == t else IsUnder(List(items, origin), seg, d)
  {
  }

  /** One discard removes exactly the nodes at and below the end of its path. */
  lemma {:induction false} DiscardRemovesOneSubtree(v: Json, t: Tree, path: Path)
    requires Pruned(v, t) && HasTarget(Some(t), path)
    ensures NodeName(t, path) in Nodes(t)
    ensures forall q :: q in Nodes(Discarded(t, path)) <==> q in Nodes(t) && !(NodeName(t, path) <= q)
    decreases |path|
  {
    hide Pruned, Nodes, NodeName, Discarded, IsUnder;
    var name := NodeName(t, path);
    NodeNameStep(t, path);
    var c := Child(t, path[0]).value;
    ChildPruned(v, t, path);
    if |path| > 1 {
      DiscardRemovesOneSubtree(ChildInput(v, t, path[0]), c, path[1..]);
    } else {
      RootIsNode(c);
    }
    NodesUnder(v, t, name[0], name[1..]);
    NamesAreUnique(v, t, path, c);
    assert name == [name[0]] + name[1..];
    DiscardKeepsPruned(v, t, path);
    forall q ensures q in Nodes(Discarded(t, path)) <==> q in Nodes(t) && !(name <= q) {
      if q == [] {
        RootIsNode(t);
        RootIsNode(Discarded(t, path));
      } else {
        assert q == [q[0]] + q[1..];
        Below(name, q);
        NodesUnder(v, t, q[0], q[1..]);
        NodesUnder(v, Discarded(t, path), q[0], q[1..]);
        forall d ensures IsUnder(Discarded(t, path), q[0], d)
                         <==> if q[0] == name[0] then |path| > 1 && d == Discarded(c, path[1..])
                             else IsUnder(t, q[0], d)
        {
          UnderDiscarded(v, t, path, q[0], d);
        }
        forall d ensures IsUnder(t, name[0], d) <==> d == c { NamesAreUnique(v, t, path, d); }
        if q[0] == name[0] {
          assert q in Nodes(t) <==> q[1..] in Nodes(c);
          assert name[1..] == NodeName(c, path[1..]);
          if |path| > 1 {
            assert IsUnder(Discarded(t, path), q[0], Discarded(c, path[1..]));
            assert q in Nodes(Discarded(t, path)) <==> q[1..] in Nodes(Discarded(c, path[1..]));
          }
        }
      }
    }
  }

  /** The input's part a child was pruned from. */
  function ChildInput(v: Json, t: Tree, seg: Seg): Json
  {
    if t.List? && v.Arr? && seg.Index? && 0 <= seg.n < |t.origin| && t.origin[seg.n] < |v.items| then
        v.items[t.origin[seg.n]]
    else if v.Obj? && SegText(seg) in v.fields then v.fields[SegText(seg)]
    else v
  }

  lemma ChildPruned(v: Json, t: Tree, path: Path)
    requires Pruned(v, t) && HasTarget(Some(t), path)
    ensures Child(t, path[0]).Some? && Pruned(ChildInput(v, t, path[0]), Child(t, path[0]).value)
  {
  }

  lemma NodeNameStep(t: Tree, path: Path)
    requires HasTarget(Some(t), path)
    ensures Child(t, path[0]).Some? && |NodeName(t, path)| == |path|
    ensures Node(Child(t, path[0]).value, path[1..]).Some?
            && NodeName(t, path)[1..] == NodeName(Child(t, path[0]).value, path[1..])
    ensures |path| > 1 ==> HasTarget(Child(t, path[0]), path[1..])
  {
  }

  lemma Below(name: Path, q: Path)
    requires name != [] && q != []
    ensures name <= q <==> name[0] == q[0] && name[1..] <= q[1..]
  {
  }
}
