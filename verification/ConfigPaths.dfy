/** What a merge of configurations holds at a path, and what is left of a value when its unsafe keys are gone. */
module ConfigPaths {
  import opened Wrappers
  import opened Text
  import opened JsonValues
  import opened Sorting
  import opened ConfigMerge
  import opened ConfigTrees

  // ----- texts

  /** What JavaScript prints for a value. */
  ghost predicate IsText(v: Json, s: string)
    decreases v
  {
    match v
    case Null => s == "null"
    case Bool(b) => s == if b then "true" else "false"
    case Int(n) => if n < 0 then s == "-" + Decimal(-n) else s == Decimal(n)
    case Fraction(printed) => s == printed
    case Str(t) => s == t
    case Arr(items) =>
      exists pieces ::
        && |pieces| == |items| && s == Join(pieces, ',')
        && forall i :: 0 <= i < |items| ==> if items[i] == Null then pieces[i] == "" else IsText(items[i], pieces[i])
    case Obj(_) => s == "[object Object]"
  }

  lemma {:induction false} TextIs(v: Json)
    ensures IsText(v, ToText(v))
    decreases v
  {
    hide Join;
    if v.Arr? {
      var pieces := seq(|v.items|, i requires 0 <= i < |v.items| =>
                          if v.items[i].Null? then "" else ToText(v.items[i]));
      forall i | 0 <= i < |v.items|
        ensures if v.items[i] == Null then pieces[i] == "" else IsText(v.items[i], pieces[i])
      {
        TextIs(v.items[i]);
      }
      ListIs(v.items, pieces);
    }
  }

  lemma {:induction false} ListIs(items: seq<Json>, pieces: seq<string>)
    requires |pieces| == |items|
    requires forall i :: 0 <= i < |items| ==> pieces[i] == if items[i].Null? then "" else ToText(items[i])
    ensures ListText(items) == Join(pieces, ',')
  {
    hide ToText;
    if |items| > 1 {
      ListIs(items[1..], pieces[1..]);
      assert "," + Join(pieces[1..], ',') == [','] + Join(pieces[1..], ',');
      assert pieces[0] + ([','] + Join(pieces[1..], ',')) == pieces[0] + [','] + Join(pieces[1..], ',');
    }
  }

  // ----- unions

  /** The position is the first with what stands there. */
  ghost predicate IsFirst<T>(s: seq<T>, i: nat)
    requires i < |s|
  {
    forall j :: 0 <= j < i ==> s[j] != s[i]
  }

  lemma {:induction false} DistinctPicks<T(!new)>(s: seq<T>) returns (at: seq<nat>)
    ensures Picks(s, Distinct(s), at) && forall i: nat :: i < |s| ==> (i in at <==> IsFirst(s, i))
  {
    if s == [] {
      at := [];
    } else {
      var front, last := s[..|s| - 1], s[|s| - 1];
      at := DistinctPicks(front);
      PicksSnoc(front, Distinct(front), at, last);
      assert s == front + [last];
      forall i: nat | i < |front| ensures IsFirst(s, i) <==> IsFirst(front, i) {}
      assert IsFirst(s, |front|) <==> last !in front;
      if last !in front { at := at + [|front|]; }
    }
  }

  /** The texts of both lists, each where it comes first. */
  ghost predicate IsUnion(a: seq<Json>, b: seq<Json>, r: Option<Json>)
  {
    exists texts: seq<string>, once: seq<string>, at: seq<nat> :: UnitesTo(a + b, texts, once, at, r)
  }

  ghost predicate UnitesTo(items: seq<Json>, texts: seq<string>, once: seq<string>, at: seq<nat>, r: Option<Json>)
  {
    && |texts| == |items| && (forall i :: 0 <= i < |items| ==> IsText(items[i], texts[i]))
    && Picks(texts, once, at) && (forall i: nat :: i < |texts| ==> (i in at <==> IsFirst(texts, i)))
    && r.Some? && r.value.Arr? && |r.value.items| == |once|
    && forall i :: 0 <= i < |once| ==> r.value.items[i] == Str(once[i])
  }

  lemma UnionIs(a: seq<Json>, b: seq<Json>)
    ensures IsUnion(a, b, Some(Arr(Union(a, b))))
  {
    hide IsText, ToText, Distinct, Picks;
    var texts := Texts(a) + Texts(b);
    forall v: Json ensures IsText(v, ToText(v)) { TextIs(v); }
    var at := DistinctPicks(texts);
    assert UnitesTo(a + b, texts, Distinct(texts), at, Some(Arr(Union(a, b))));
  }

  // ----- what a merge holds at a path

  ghost function NodeAt(v: Option<Json>, path: seq<string>): Option<Json>
    decreases |path|
  {
    if path == [] then v
    else if v.Some? && v.value.Obj? && path[0] in v.value.fields then NodeAt(Some(v.value.fields[path[0]]), path[1..])
    else None
  }

  ghost predicate IsObject(v: Option<Json>) { v.Some? && v.value.Obj? }

  ghost predicate IsList(v: Option<Json>) { v.Some? && v.value.Arr? }

  /** Both have objects all the way to the end of the path. */
  ghost predicate Parallel(base: Option<Json>, over: Option<Json>, path: seq<string>)
  {
    forall n :: 0 <= n < |path| ==> IsObject(NodeAt(base, path[..n])) && IsObject(NodeAt(over, path[..n]))
  }

  ghost function LastKey(key: Option<string>, path: seq<string>): Option<string>
  {
    if path == [] then key else Some(path[|path| - 1])
  }

  ghost predicate IsAccumulating(key: Option<string>)
  {
    key.Some? && key.value in {"fallbackModels", "disabledAgents", "disabledHooks", "disabledTools", "disabledSkills",
                               "disabledCommands", "disabledMcps"}
  }

  /** What stands where two values meet: the second if there is one, but two accumulating lists unite, unless a profile
      is laid over, and two objects become one with the keys of both. */
  ghost predicate Meets(b: Option<Json>, o: Option<Json>, key: Option<string>, overlay: bool, r: Option<Json>)
  {
    if o.None? then r == b
    else if IsList(b) && IsList(o) && !overlay && IsAccumulating(key) then IsUnion(b.value.items, o.value.items, r)
    else if IsObject(b) && IsObject(o) then
      IsObject(r) && forall k :: k in r.value.fields <==> k in b.value.fields || k in o.value.fields
    else r == o
  }

  lemma MeetsIs(b: Option<Json>, o: Option<Json>, key: Option<string>, overlay: bool)
    ensures Meets(b, o, key, overlay, Merged(b, o, key, overlay))
  {
    hide Union, IsUnion, Safe;
    if IsList(b) && IsList(o) { UnionIs(b.value.items, o.value.items); }
  }

  lemma NodeStep(v: Option<Json>, path: seq<string>)
    requires path != [] && IsObject(v)
    ensures NodeAt(v, path) == NodeAt(At(v.value.fields, path[0]), path[1..])
  {
    if path[0] !in v.value.fields { NothingBelow(path[1..]); }
  }

  lemma NothingBelow(path: seq<string>)
    ensures NodeAt(None, path) == None
  {
  }

  lemma ParallelStep(base: Option<Json>, over: Option<Json>, path: seq<string>)
    requires path != [] && Parallel(base, over, path)
    ensures IsObject(base) && IsObject(over)
    ensures Parallel(At(base.value.fields, path[0]), At(over.value.fields, path[0]), path[1..])
  {
    hide NodeAt;
    assert path[..0] == [];
    RootIs(base);
    RootIs(over);
    var b, o := At(base.value.fields, path[0]), At(over.value.fields, path[0]);
    forall n | 0 <= n < |path| - 1
      ensures IsObject(NodeAt(b, path[1..][..n])) && IsObject(NodeAt(o, path[1..][..n]))
    {
      assert path[..n + 1][1..] == path[1..][..n] && path[..n + 1][0] == path[0];
      NodeStep(base, path[..n + 1]);
      NodeStep(over, path[..n + 1]);
    }
  }

  lemma RootIs(v: Option<Json>)
    ensures NodeAt(v, []) == v
  {
  }

  lemma MergedStep(base: Option<Json>, over: Option<Json>, key: Option<string>, overlay: bool, path: seq<string>)
    requires path != [] && IsObject(base) && IsObject(over)
    ensures NodeAt(Merged(base, over, key, overlay), path)
            == NodeAt(Merged(At(base.value.fields, path[0]), At(over.value.fields, path[0]), Some(path[0]), overlay),
                      path[1..])
  {
    hide Merged, MergedFields, NodeAt, Safe;
    var x, y := base.value.fields, over.value.fields;
    MergeOfObjects(x, y, key, overlay);
    AtMerged(x, y, path[0], overlay);
    NodeStep(Some(Obj(MergedFields(x, y, overlay))), path);
  }

  /** Where both values have objects up to the end of a path, what they have there meets. */
  lemma {:induction false} MergedWhereBothReach(base: Option<Json>, over: Option<Json>, key: Option<string>,
                                                overlay: bool, path: seq<string>)
    requires Parallel(base, over, path)
    ensures Meets(NodeAt(base, path), NodeAt(over, path), LastKey(key, path), overlay,
                  NodeAt(Merged(base, over, key, overlay), path))
    decreases |path|
  {
    hide Merged, Meets, Parallel;
    if path == [] {
      MeetsIs(base, over, key, overlay);
    } else {
      ParallelStep(base, over, path);
      MergedStep(base, over, key, overlay, path);
      NodeStep(base, path);
      NodeStep(over, path);
      var b, o := At(base.value.fields, path[0]), At(over.value.fields, path[0]);
      MergedWhereBothReach(b, o, Some(path[0]), overlay, path[1..]);
    }
  }

  /** Below a place where one of the two has no object, everything comes from the second if it has anything at that
      place, and from the first otherwise. */
  lemma {:induction false} MergedBelow(base: Option<Json>, over: Option<Json>, key: Option<string>, overlay: bool,
                                       path: seq<string>, n: nat)
    requires n < |path| && Parallel(base, over, path[..n])
    requires !(IsObject(NodeAt(base, path[..n])) && IsObject(NodeAt(over, path[..n])))
    ensures NodeAt(Merged(base, over, key, overlay), path)
            == if NodeAt(over, path[..n]).Some? then NodeAt(over, path) else NodeAt(base, path)
    decreases |path|
  {
    hide Merged, Parallel;
    if n == 0 {
      assert path[..0] == [];
      MergedUnalike(base, over, key, overlay);
      if IsList(over) {
        ListsHoldNothing(over, path);
        ListsHoldNothing(Merged(base, over, key, overlay), path);
      }
    } else {
      assert path[..n][0] == path[0] && path[..n][1..] == path[1..][..n - 1];
      ParallelStep(base, over, path[..n]);
      MergedStep(base, over, key, overlay, path);
      NodeStep(base, path);
      NodeStep(over, path);
      NodeStep(base, path[..n]);
      NodeStep(over, path[..n]);
      var b, o := At(base.value.fields, path[0]), At(over.value.fields, path[0]);
      MergedBelow(b, o, Some(path[0]), overlay, path[1..], n - 1);
    }
  }

  lemma MergedUnalike(base: Option<Json>, over: Option<Json>, key: Option<string>, overlay: bool)
    requires !(IsObject(base) && IsObject(over))
    ensures var r := Merged(base, over, key, overlay);
            if over.None? then r == base else if IsList(over) then IsList(r) else r == over
  {
    hide Union;
  }

  lemma ListsHoldNothing(v: Option<Json>, path: seq<string>)
    requires IsList(v) && path != []
    ensures NodeAt(v, path) == None
  {
  }

  // ----- without unsafe keys

  ghost predicate PassesUnsafe(path: Path)
  {
    exists i :: 0 <= i < |path| && path[i] in {Name("__proto__"), Name("constructor"), Name("prototype")}
  }

  /** What is left of one value: scalars as they are, lists of the same length, objects without the unsafe keys. */
  ghost predicate KeepsShape(v: Json, r: Json)
  {
    match v
    case Arr(items) => r.Arr? && |r.items| == |items|
    case Obj(fields) =>
      r.Obj? && forall k :: k in r.fields <==> k in fields && k !in {"__proto__", "constructor", "prototype"}
    case _ => r == v
  }

  lemma ShapeIsKept(v: Json)
    ensures KeepsShape(v, Sanitize(v))
  {
    hide Safe;
  }

  lemma {:induction false} Digits(n: nat)
    ensures SegText(Index(n)) !in {"__proto__", "constructor", "prototype"}
  {
    var s := Decimal(n);
    assert s[0] in s;
    assert "__proto__"[0] == '_' && "constructor"[0] == 'c' && "prototype"[0] == 'p';
  }

  /** Sanitizing leaves at every path what was there, without its own unsafe keys, unless the path passes through
      one. */
  lemma {:induction false} SanitizedAtPath(v: Json, path: Path)
    requires forall i :: 0 <= i < |path| ==> !path[i].Fractional? && (path[i].Index? ==> path[i].n >= 0)
    ensures PassesUnsafe(path) ==> InputNode(Sanitize(v), path) == None
    ensures !PassesUnsafe(path) ==> InputNode(Sanitize(v), path) == Sanitized(InputNode(v, path))
    decreases |path|
  {
    hide Safe, SegText;
    if path != [] {
      var seg, rest := path[0], path[1..];
      assert PassesUnsafe(path) <==>
          seg in {Name("__proto__"), Name("constructor"), Name("prototype")} || PassesUnsafe(rest)
      by { PassesStep(path); }
      SegmentIsUnsafe(seg);
      if v.Arr? && seg.Index? && seg.n < |v.items| {
        assert Sanitize(v).items[seg.n] == Sanitize(v.items[seg.n]);
        SanitizedAtPath(v.items[seg.n], rest);
      } else if v.Obj? && SegText(seg) in v.fields && !IsUnsafeKey(SegText(seg)) {
        SanitizedAtPath(v.fields[SegText(seg)], rest);
      }
    }
  }

  lemma SegmentIsUnsafe(seg: Seg)
    requires !seg.Fractional? && (seg.Index? ==> seg.n >= 0)
    ensures IsUnsafeKey(SegText(seg)) <==> seg in {Name("__proto__"), Name("constructor"), Name("prototype")}
  {
    if seg.Index? { Digits(seg.n); }
  }

  lemma PassesStep(path: Path)
    requires path != []
    ensures PassesUnsafe(path)
            <==> path[0] in {Name("__proto__"), Name("constructor"), Name("prototype")} || PassesUnsafe(path[1..])
  {
    if PassesUnsafe(path) {
      var i :| 0 <= i < |path| && path[i] in {Name("__proto__"), Name("constructor"), Name("prototype")};
      assert i > 0 ==> path[1..][i - 1] == path[i];
    }
    if PassesUnsafe(path[1..]) {
      var i :| 0 <= i < |path| - 1 && path[1..][i] in {Name("__proto__"), Name("constructor"), Name("prototype")};
      assert path[i + 1] == path[1..][i];
    }
  }

  // ----- overlays and layers, member by member

  /** An entry with an alias that says nothing about models itself. */
  ghost predicate FollowsAlias(entry: map<string, Json>)
  {
    && (exists alias :: alias != "" && At(entry, "alias") == Some(Str(alias)))
    && (forall model :: At(entry, "model") == Some(Str(model)) ==> model == "")
    && (forall models :: At(entry, "models") == Some(Arr(models)) ==> models == [])
    && (forall models :: At(entry, "fallbackModels") == Some(Arr(models)) ==> models == [])
    && (forall fields :: At(entry, "requirement") != Some(Obj(fields)))
  }

  lemma FollowsAliasIff(entry: map<string, Json>)
    ensures AliasOnly(entry) <==> FollowsAlias(entry)
  {
    if "alias" in entry && entry["alias"].Str? { assert At(entry, "alias") == Some(Str(entry["alias"].s)); }
    if "model" in entry && entry["model"].Str? { assert At(entry, "model") == Some(Str(entry["model"].s)); }
    if "models" in entry && entry["models"].Arr? { assert At(entry, "models") == Some(Arr(entry["models"].items)); }
    if "fallbackModels" in entry && entry["fallbackModels"].Arr? {
      assert At(entry, "fallbackModels") == Some(Arr(entry["fallbackModels"].items));
    }
    if "requirement" in entry && entry["requirement"].Obj? {
      assert At(entry, "requirement") == Some(Obj(entry["requirement"].fields));
    }
  }

  /** A member of an agent under an overlay that has the agent too: an entry that follows an alias loses the six members
      that would select models or their intensity, and keeps everything else. */
  lemma OverlaidMember(base: map<string, Json>, over: map<string, Json>, name: string, k: string)
    requires name in base && name in over && base[name].Obj? && over[name].Obj?
    requires !IsUnsafeKey(name) && !IsUnsafeKey(k)
    ensures var agents := MergeProfileOverlay(Some(Obj(base)), Some(Obj(over)), true).value;
            var b, o := Sanitized(At(base[name].fields, k)), Sanitized(At(over[name].fields, k));
            && agents.Obj? && name in agents.fields && agents.fields[name].Obj?
            && At(agents.fields[name].fields, k)
               == if FollowsAlias(over[name].fields)
                     && k in {"model", "models", "fallbackModels", "requirement", "variant", "reasoning"} then o
                  else Merged(b, o, Some(k), true)
  {
    hide Merged, Sanitize, MergeProfileOverlay, AliasOnly, FollowsAlias, Safe;
    FollowsAliasIff(over[name].fields);
    OverlaidAgentField(base, over, name, k);
  }

  /** A configuration under an overlay: its agents are laid over as agents if both have some, everything else is
      merged. */
  lemma OverlaidConfiguration(base: map<string, Json>, over: map<string, Json>, k: string)
    requires !IsUnsafeKey(k)
    ensures var r := MergeProfileOverlay(Some(Obj(base)), Some(Obj(over)), false);
            && IsObject(r)
            && At(r.value.fields, k)
               == if k == "agents" && IsObject(At(base, k)) && IsObject(At(over, k))
                  then MergeProfileOverlay(At(base, k), At(over, k), true)
                  else Merged(Sanitized(At(base, k)), Sanitized(At(over, k)), Some(k), true)
  {
    hide Merged, Sanitize, PreparedAgents, Safe;
    DeepMergeOfObjects(base, over, k, true);
    if IsObject(At(base, "agents")) && IsObject(At(over, "agents")) {
      var prepared := Obj(PreparedAgents(base["agents"].fields, over["agents"].fields));
      DeepMergeOfObjects(base["agents" := prepared], over, k, true);
      if k == "agents" { KeyIsNoMatter(Sanitized(Some(prepared)), Sanitized(At(over, k)), Some(k)); }
    }
  }

  /** Under an overlay it makes no difference at which key two values stand. */
  lemma KeyIsNoMatter(b: Option<Json>, o: Option<Json>, key: Option<string>)
    ensures Merged(b, o, key, true) == Merged(b, o, None, true)
  {
  }

  /** One base layer is merged onto nothing, a profile layer is laid over it; of two profile layers the later one is
      laid over the earlier one. */
  lemma TwoLayers(first: map<string, Json>, second: map<string, Json>, p: bool)
    requires Safe(Obj(first)) && Safe(Obj(second))
    ensures var b, o := Some(Obj(first)), Some(Obj(second));
            && MergedLayers([Layer(b, false), Layer(o, false)]) == DeepMerge(b, o, false)
            && MergedLayers([Layer(b, p), Layer(o, true)]) == MergeProfileOverlay(b, o, false)
            && MergedLayers([Layer(o, true), Layer(b, false)]) == MergeProfileOverlay(b, o, false)
  {
    hide Merged, MergedFields, DeepMerge, MergeProfileOverlay, Sanitize, Safe, Values, BaseOf, ProfileOf;
    var b, o := Some(Obj(first)), Some(Obj(second));
    TwoValues(Layer(b, false), Layer(o, false));
    TwoValues(Layer(b, p), Layer(o, true));
    TwoValues(Layer(o, true), Layer(b, false));
    OneValue(first);
    OneValue(second);
    var none: seq<Option<Json>> := [];
    FoldsSnoc([b], o);
    assert [b] + [o] == [b, o] && [b] + none == [b] && none + [o] == [o] && none + [b] == [b] && [o] + none == [o];
    OverlayOfObjects(first, second);
    NoLayers();
    OntoNothing(MergeProfileOverlay(b, o, false).value.fields);
  }

  lemma OverlayOfObjects(first: map<string, Json>, second: map<string, Json>)
    ensures IsObject(MergeProfileOverlay(Some(Obj(first)), Some(Obj(second)), false))
  {
    hide Merged, MergedFields, Sanitize, PreparedAgents, Safe;
    OverlaidConfiguration(first, second, "alias");
  }

  lemma TwoValues(x: Layer, y: Layer)
    ensures forall p: bool ::
              Values([x, y], p) == (if x.profileOverlay == p then [x.value] else [])
                                   + (if y.profileOverlay == p then [y.value] else [])
  {
    hide Values;
    NoLayers();
    assert [x, y] == [x] + [y] && [x] == [] + [x];
    ValuesSnoc([], x, true);
    ValuesSnoc([x], y, true);
    ValuesSnoc([], x, false);
    ValuesSnoc([x], y, false);
  }

  lemma OntoNothing(fields: map<string, Json>)
    requires Safe(Obj(fields))
    ensures DeepMerge(EMPTY, Some(Obj(fields)), false) == Some(Obj(fields))
    ensures MergeProfileOverlay(EMPTY, Some(Obj(fields)), false) == Some(Obj(fields))
  {
    hide Safe, Merged;
    assert Sanitize(Obj(map[])) == Obj(map[]);
    forall overlay: bool ensures Merged(EMPTY, Some(Obj(fields)), None, overlay) == Some(Obj(fields)) {
      MergeOfObjects(map[], fields, None, overlay);
      FieldsOntoNothing(fields, overlay);
    }
  }

  lemma FieldsOntoNothing(fields: map<string, Json>, overlay: bool)
    ensures MergedFields(map[], fields, overlay) == fields
  {
    hide Merged, MergedFields, Safe;
    var r := MergedFields(map[], fields, overlay);
    forall k ensures At(r, k) == At(fields, k) {
      AtMerged(map[], fields, k, overlay);
      MergedWithNone(At(fields, k), Some(k), overlay);
    }
    SameFields(r, fields);
  }

  lemma OneValue(fields: map<string, Json>)
    requires Safe(Obj(fields))
    ensures BaseOf([Some(Obj(fields))]) == ProfileOf([Some(Obj(fields))]) == Some(Obj(fields))
  {
    hide DeepMerge, MergeProfileOverlay, Safe, BaseOf, ProfileOf;
    var none: seq<Option<Json>> := [];
    NoLayers();
    FoldsSnoc(none, Some(Obj(fields)));
    assert none + [Some(Obj(fields))] == [Some(Obj(fields))];
    OntoNothing(fields);
  }
}
