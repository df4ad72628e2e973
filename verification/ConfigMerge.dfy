/** Merging configuration layers: the deep merge, its profile overlay, and the order layers are folded in. */
module ConfigMerge {
  import opened Wrappers
  import opened Text
  import opened JsonValues

  // ----- keys

  predicate IsUnsafeKey(key: string) { key in {"__proto__", "constructor", "prototype"} }

  /** The keys whose arrays accumulate over layers. */
  predicate Accumulates(key: string)
  {
    key in {"fallbackModels", "disabledAgents", "disabledHooks", "disabledTools", "disabledSkills", "disabledCommands",
        "disabledMcps"}
  }

  // ----- sanitizing

  /** The value without its unsafe keys, at every depth. */
  function Sanitize(v: Json): (r: Json)
    ensures Safe(r) && (Safe(v) ==> r == v)
  {
    match v
    case Arr(items) => SanitizedItems(items)
    case Obj(fields) => Obj(map k | k in fields && !IsUnsafeKey(k) :: Sanitize(fields[k]))
    case _ => v
  }

  function SanitizedItems(items: seq<Json>): (r: Json)
    ensures r.Arr? && |r.items| == |items| && forall i :: 0 <= i < |items| ==> r.items[i] == Sanitize(items[i])
    ensures Safe(r) && (Safe(Arr(items)) ==> r == Arr(items))
  {
    Arr(seq(|items|, i requires 0 <= i < |items| => Sanitize(items[i])))
  }

  /** No unsafe key at any depth. */
  predicate Safe(v: Json)
  {
    match v
    case Arr(items) => forall i :: 0 <= i < |items| ==> Safe(items[i])
    case Obj(fields) => forall k :: k in fields ==> !IsUnsafeKey(k) && Safe(fields[k])
    case _ => true
  }

  // ----- ordered unions without duplicates

  /** `String(v)`. For an object with a member `toString` the original throws instead: no JSON value is callable. */
  function ToText(v: Json): string
  {
    match v
    case Null => "null"
    case Bool(b) => if b then "true" else "false"
    case Int(n) => if n < 0 then "-" + Decimal(-n) else Decimal(n)
    case Fraction(printed) => printed
    case Str(s) => s
    case Arr(items) => ListText(items)
    case Obj(_) => "[object Object]"
  }

  /** Elements between commas, nothing for null. */
  function ListText(items: seq<Json>): string
  {
    if items == [] then ""
    else
      (if items[0].Null? then "" else ToText(items[0])) + (if |items| == 1 then "" else "," + ListText(items[1..]))
  }

  function Texts(items: seq<Json>): (r: seq<string>)
    ensures |r| == |items| && forall i :: 0 <= i < |items| ==> r[i] == ToText(items[i])
  {
    seq(|items|, i requires 0 <= i < |items| => ToText(items[i]))
  }

  function Strs(texts: seq<string>): (r: seq<Json>)
    ensures |r| == |texts| && forall i :: 0 <= i < |texts| ==> r[i] == Str(texts[i])
  {
    seq(|texts|, i requires 0 <= i < |texts| => Str(texts[i]))
  }

  /** The first occurrences, in order: what a set built from the sequence lists. */
  function Distinct<T(==,!new)>(s: seq<T>): (r: seq<T>)
    ensures forall x :: x in r <==> x in s
    ensures forall i, j :: 0 <= i < j < |r| ==> r[i] != r[j]
  {
    if s == [] then []
    else
      var front, last := Distinct(s[..|s| - 1]), s[|s| - 1];
      assert s == s[..|s| - 1] + [last];
      if last in front then front else front + [last]
  }

  function Union(a: seq<Json>, b: seq<Json>): seq<Json> { Strs(Distinct(Texts(a) + Texts(b))) }

  lemma {:induction false} DistinctLeft<T(!new)>(a: seq<T>, b: seq<T>)
    ensures Distinct(Distinct(a) + b) == Distinct(a + b)
  {
    if b == [] {
      assert Distinct(a) + b == Distinct(a) && a + b == a;
      DistinctAlready(Distinct(a));
    } else {
      var front := b[..|b| - 1];
      DistinctLeft(a, front);
      assert (Distinct(a) + b)[..|Distinct(a) + b| - 1] == Distinct(a) + front;
      assert (a + b)[..|a + b| - 1] == a + front;
    }
  }

  lemma {:induction false} DistinctAlready<T(!new)>(s: seq<T>)
    requires forall i, j :: 0 <= i < j < |s| ==> s[i] != s[j]
    ensures Distinct(s) == s
  {
    if s != [] { DistinctAlready(s[..|s| - 1]); }
  }

  lemma {:induction false} DistinctRight<T(!new)>(a: seq<T>, b: seq<T>)
    ensures Distinct(a + Distinct(b)) == Distinct(a + b)
  {
    if b == [] {
      assert a + Distinct(b) == a + b;
    } else {
      var front, last := b[..|b| - 1], b[|b| - 1];
      DistinctRight(a, front);
      assert (a + b)[..|a + b| - 1] == a + front;
      if last !in front {
        assert (a + Distinct(b))[..|a + Distinct(b)| - 1] == a + Distinct(front);
      }
    }
  }

  lemma TextsOfStrs(texts: seq<string>)
    ensures Texts(Strs(texts)) == texts
  {
  }

  lemma UnionIsAssociative(a: seq<Json>, b: seq<Json>, c: seq<Json>)
    ensures Union(a, Union(b, c)) == Union(Union(a, b), c)
  {
    hide Distinct, Texts, Strs;
    TextsOfStrs(Distinct(Texts(b) + Texts(c)));
    TextsOfStrs(Distinct(Texts(a) + Texts(b)));
    DistinctRight(Texts(a), Texts(b) + Texts(c));
    DistinctLeft(Texts(a) + Texts(b), Texts(c));
    assert Texts(a) + (Texts(b) + Texts(c)) == Texts(a) + Texts(b) + Texts(c);
  }

  // ----- the merge

  function At(fields: map<string, Json>, k: string): Option<Json>
  {
    if k in fields then Some(fields[k]) else None
  }

  /** Where a value stands decides what its arrays do: a profile overlay replaces, an accumulating key unites. */
  predicate Unites(key: Option<string>, overlay: bool) {
    !overlay && key.Some? && key.value != "" && Accumulates(key.value)
  }

  /** The merge of two values, either of which may be absent. */
  function Merged(base: Option<Json>, over: Option<Json>, key: Option<string>, overlay: bool): (r: Option<Json>)
    ensures r.None? <==> base.None? && over.None?
    ensures (base.Some? ==> Safe(base.value)) && (over.Some? ==> Safe(over.value)) && r.Some? ==> Safe(r.value)
    decreases if over.Some? then 1 else 0, if over.Some? then over.value else Null, 1
  {
    if over.None? then base
    else if base.Some? && base.value.Arr? && over.value.Arr? then
      if Unites(key, overlay) then Some(Arr(Union(base.value.items, over.value.items))) else over
    else if base.Some? && base.value.Obj? && over.value.Obj? then
      Some(Obj(MergedFields(base.value.fields, over.value.fields, overlay)))
    else over
  }

  function MergedFields(base: map<string, Json>, over: map<string, Json>, overlay: bool): (r: map<string, Json>)
    ensures r.Keys == base.Keys + over.Keys
    ensures Safe(Obj(base)) && Safe(Obj(over)) ==> Safe(Obj(r))
    decreases 1, Obj(over), 0
  {
    map k | k in base.Keys + over.Keys ::
      if k in over then Merged(At(base, k), Some(over[k]), Some(k), overlay).value else base[k]
  }

  function Sanitized(v: Option<Json>): (r: Option<Json>)
    ensures r.Some? <==> v.Some?
    ensures r.Some? ==> Safe(r.value)
  {
    if v.None? then None else Some(Sanitize(v.value))
  }

  /** `deepMerge` without a parent key */
  function DeepMerge(base: Option<Json>, over: Option<Json>, overlay: bool): (r: Option<Json>)
    ensures r.Some? ==> Safe(r.value)
  {
    Merged(Sanitized(base), Sanitized(over), None, overlay)
  }

  /** The loop over the override's keys builds the merge of two objects. */
  method MergeSanitized(base: Option<Json>, over: Option<Json>, key: Option<string>, overlay: bool)
    returns (r: Option<Json>)
    ensures r == Merged(base, over, key, overlay)
    decreases if over.Some? then 1 else 0, if over.Some? then over.value else Null, 1
  {
    if over.None? { return base; }
    if base.Some? && base.value.Arr? && over.value.Arr? {
      if overlay { return over; }
      if key.Some? && key.value != "" && Accumulates(key.value) {
        return Some(Arr(Union(base.value.items, over.value.items)));
      }
      return over;
    }
    if base.Some? && base.value.Obj? && over.value.Obj? {
      var out := MergeObjects(base.value.fields, over.value.fields, overlay);
      return Some(Obj(out));
    }
    return over;
  }

  method MergeObjects(base: map<string, Json>, over: map<string, Json>, overlay: bool) returns (out: map<string, Json>)
    ensures out == MergedFields(base, over, overlay)
    decreases 1, Obj(over), 0
  {
    hide Merged, MergedFields, Safe, Halfway, At;
    ghost var merged := MergedFields(base, over, overlay);
    out := base;
    var left := over.Keys;
    assert Halfway(base, over.Keys, merged, left, out) by { MergeStarts(base, over, overlay); }
    while left != {}
      invariant left <= over.Keys
      invariant Halfway(base, over.Keys, merged, left, out)
      decreases |left|
    {
      var k :| k in left;
      var value := MergeSanitized(At(base, k), Some(over[k]), Some(k), overlay);
      MergedAt(base, over, k, overlay);
      MergeAdvances(base, over.Keys, merged, left, out, k);
      out := out[k := value.value];
      left := left - {k};
    }
    MergeEnds(base, over.Keys, merged, out);
  }

  /** The keys that are left still hold what the base had, all others what the merge gives. */
  ghost predicate Halfway(base: map<string, Json>, keys: set<string>, merged: map<string, Json>, left: set<string>,
      out: map<string, Json>)
  {
    && merged.Keys == base.Keys + keys
    && out.Keys == base.Keys + (keys - left)
    && forall k :: k in out ==> if k in left then k in base && out[k] == base[k] else out[k] == merged[k]
  }

  lemma MergeStarts(base: map<string, Json>, over: map<string, Json>, overlay: bool)
    ensures Halfway(base, over.Keys, MergedFields(base, over, overlay), over.Keys, base)
  {
    hide Merged, Safe;
  }

  lemma MergeAdvances(base: map<string, Json>, keys: set<string>, merged: map<string, Json>, left: set<string>,
      out: map<string, Json>, k: string)
    requires Halfway(base, keys, merged, left, out) && k in left && left <= keys
    ensures Halfway(base, keys, merged, left - {k}, out[k := merged[k]])
  {
    hide Safe;
  }

  lemma MergeEnds(base: map<string, Json>, keys: set<string>, merged: map<string, Json>, out: map<string, Json>)
    requires Halfway(base, keys, merged, {}, out)
    ensures out == merged
  {
    hide Safe;
  }

  lemma MergedAt(base: map<string, Json>, over: map<string, Json>, k: string, overlay: bool)
    requires k in base || k in over
    ensures Some(MergedFields(base, over, overlay)[k])
            == if k in over then Merged(At(base, k), Some(over[k]), Some(k), overlay) else Some(base[k])
  {
    hide Merged, Safe;
  }

  // ----- when the merge associates

  /** The second array lists distinct strings, beginning with those the first one lists. */
  predicate ListsOn(a: seq<Json>, c: seq<Json>)
  {
    && (forall i :: 0 <= i < |c| ==> c[i].Str?)
    && (forall i, j :: 0 <= i < j < |c| ==> c[i] != c[j])
    && Distinct(Texts(a)) <= Texts(c)
  }

  /** The second value already has what the first one would add to it: the keys of an object, each absorbed in turn, or
      the strings of an accumulating array. */
  predicate Absorbed(a: Json, c: Json, key: Option<string>, overlay: bool)
    decreases c
  {
    if a.Obj? && c.Obj? then
      && a.fields.Keys <= c.fields.Keys
      && forall k :: k in a.fields && k in c.fields ==> Absorbed(a.fields[k], c.fields[k], Some(k), overlay)
    else if a.Arr? && c.Arr? && Unites(key, overlay) then ListsOn(a.items, c.items)
    else true
  }

  /** A distinct list stands for itself, whatever part of its beginning is put before it once more. */
  lemma BeginningAddsNothing<T(!new)>(s: seq<T>, n: nat)
    requires n <= |s| && forall i, j :: 0 <= i < j < |s| ==> s[i] != s[j]
    ensures Distinct(s[..n] + s) == s
  {
    AddedOneByOne(s[..n], s, |s|);
    assert s[..|s|] == s;
  }

  lemma {:induction false} AddedOneByOne<T(!new)>(p: seq<T>, s: seq<T>, m: nat)
    requires p <= s && m <= |s| && forall i, j :: 0 <= i < j < |s| ==> s[i] != s[j]
    ensures Distinct(p + s[..m]) == if m <= |p| then p else s[..m]
  {
    hide Distinct;
    if m == 0 {
      assert p + s[..0] == p;
      DistinctAlready(p);
    } else {
      AddedOneByOne(p, s, m - 1);
      assert s[..m] == s[..m - 1] + [s[m - 1]];
      assert p + s[..m] == p + s[..m - 1] + [s[m - 1]];
      DistinctSnoc(p + s[..m - 1], s[m - 1]);
      if m <= |p| { assert p[m - 1] == s[m - 1]; }
    }
  }

  lemma DistinctSnoc<T(!new)>(s: seq<T>, x: T)
    ensures Distinct(s + [x]) == if x in Distinct(s) then Distinct(s) else Distinct(s) + [x]
  {
  }

  lemma {:induction false} DistinctBegins<T(!new)>(a: seq<T>, b: seq<T>)
    ensures Distinct(a) <= Distinct(a + b)
  {
    if b == [] {
      assert a + b == a;
    } else {
      DistinctBegins(a, b[..|b| - 1]);
      assert (a + b)[..|a + b| - 1] == a + b[..|b| - 1];
    }
  }

  lemma UnionAbsorbs(a: seq<Json>, c: seq<Json>)
    ensures Union(a, c) == c <==> ListsOn(a, c)
  {
    hide Distinct, ToText;
    var texts := Texts(a) + Texts(c);
    if Union(a, c) == c {
      TextsOfStrs(Distinct(texts));
      DistinctBegins(Texts(a), Texts(c));
      forall i, j | 0 <= i < j < |c| ensures c[i] != c[j] {
        assert Distinct(texts)[i] != Distinct(texts)[j];
      }
    }
    if ListsOn(a, c) {
      TextsOfList(c);
      forall i, j | 0 <= i < j < |c| ensures Texts(c)[i] != Texts(c)[j] {
        assert c[i] != c[j];
      }
      BeginningAddsNothing(Texts(c), |Distinct(Texts(a))|);
      assert Texts(c)[..|Distinct(Texts(a))|] == Distinct(Texts(a));
      DistinctLeft(Texts(a), Texts(c));
    }
  }

  lemma TextsOfList(c: seq<Json>)
    requires forall i :: 0 <= i < |c| ==> c[i].Str?
    ensures Strs(Texts(c)) == c && forall i :: 0 <= i < |c| ==> Texts(c)[i] == c[i].s
  {
  }

  /** A value absorbs another one exactly if merging onto that one leaves it as it is. */
  lemma {:induction false} AbsorbedIff(a: Json, c: Json, key: Option<string>, overlay: bool)
    ensures Merged(Some(a), Some(c), key, overlay) == Some(c) <==> Absorbed(a, c, key, overlay)
    decreases c
  {
    hide Union, ListsOn, Safe;
    if a.Obj? && c.Obj? {
      var x, y := a.fields, c.fields;
      forall k | k in x && k in y
        ensures Merged(At(x, k), At(y, k), Some(k), overlay) == At(y, k) <==> Absorbed(x[k], y[k], Some(k), overlay)
      {
        AbsorbedIff(x[k], y[k], Some(k), overlay);
      }
      FieldsAbsorbedIff(x, y, overlay);
      MergeOfObjects(x, y, key, overlay);
    } else if a.Arr? && c.Arr? {
      UnionAbsorbs(a.items, c.items);
    }
  }

  lemma FieldsAbsorbedIff(x: map<string, Json>, y: map<string, Json>, overlay: bool)
    ensures MergedFields(x, y, overlay) == y
            <==> && x.Keys <= y.Keys
                 && forall k :: k in x && k in y ==> Merged(At(x, k), At(y, k), Some(k), overlay) == At(y, k)
  {
    hide MergedFields, Merged, Safe;
    var merged := MergedFields(x, y, overlay);
    forall k ensures At(merged, k) == Merged(At(x, k), At(y, k), Some(k), overlay) {
      AtMerged(x, y, k, overlay);
    }
    SameFields(merged, y);
    forall k | k !in x ensures Merged(At(x, k), At(y, k), Some(k), overlay) == At(y, k) {
      MergedWithNone(At(y, k), Some(k), overlay);
    }
    forall k | k !in y ensures Merged(At(x, k), At(y, k), Some(k), overlay) == At(x, k) {
      MergedOntoNone(At(x, k), Some(k), overlay);
    }
  }

  lemma MergedOntoNone(base: Option<Json>, key: Option<string>, overlay: bool)
    ensures Merged(base, None, key, overlay) == base
  {
  }

  /** No value of the outer two that would merge is separated by one that stands in the way: an object by something that
      is no object, an accumulating array by something that is no array. Where one is, the later value must have
      absorbed the earlier one. */
  predicate Unseparated(a: Option<Json>, b: Option<Json>, c: Option<Json>, key: Option<string>, overlay: bool)
    decreases if c.Some? then 1 else 0, if c.Some? then c.value else Null
  {
    if a.None? || b.None? || c.None? then true
    else if a.value.Obj? && c.value.Obj? then
      if b.value.Obj? then
        forall k :: k in a.value.fields && k in b.value.fields && k in c.value.fields ==>
          Unseparated(At(a.value.fields, k), At(b.value.fields, k), At(c.value.fields, k), Some(k), overlay)
      else Absorbed(a.value, c.value, key, overlay)
    else if a.value.Arr? && c.value.Arr? && Unites(key, overlay) then
      b.value.Arr? || Absorbed(a.value, c.value, key, overlay)
    else true
  }

  predicate Associates(a: Option<Json>, b: Option<Json>, c: Option<Json>, key: Option<string>, overlay: bool)
  {
    Merged(a, Merged(b, c, key, overlay), key, overlay) == Merged(Merged(a, b, key, overlay), c, key, overlay)
  }

  lemma AtMerged(base: map<string, Json>, over: map<string, Json>, k: string, overlay: bool)
    ensures At(MergedFields(base, over, overlay), k) == Merged(At(base, k), At(over, k), Some(k), overlay)
  {
  }

  /** Merging three values associates exactly when none stands between two that would merge. */
  lemma {:induction false} AssociatesIff(a: Option<Json>, b: Option<Json>, c: Option<Json>, key: Option<string>,
      overlay: bool)
    ensures Associates(a, b, c, key, overlay) <==> Unseparated(a, b, c, key, overlay)
    decreases if c.Some? then 1 else 0, if c.Some? then c.value else Null
  {
    hide Union, Absorbed;
    if a.Some? && b.Some? && c.Some? {
      AbsorbedIff(a.value, c.value, key, overlay);
      if a.value.Obj? && b.value.Obj? && c.value.Obj? {
        var x, y, z := a.value.fields, b.value.fields, c.value.fields;
        forall k ensures AssociatesAt(x, y, z, k, overlay)
            <==> Unseparated(At(x, k), At(y, k), At(z, k), Some(k), overlay) {
          AssociatesIff(At(x, k), At(y, k), At(z, k), Some(k), overlay);
        }
        FieldsAssociate(x, y, z, overlay);
        AssociatesInFields(x, y, z, key, overlay);
        UnseparatedInFields(x, y, z, key, overlay);
      } else if a.value.Arr? && b.value.Arr? && c.value.Arr? {
        UnionIsAssociative(a.value.items, b.value.items, c.value.items);
      }
    }
  }

  predicate AssociatesAt(x: map<string, Json>, y: map<string, Json>, z: map<string, Json>, k: string, overlay: bool)
  {
    Associates(At(x, k), At(y, k), At(z, k), Some(k), overlay)
  }

  lemma FieldsAssociate(x: map<string, Json>, y: map<string, Json>, z: map<string, Json>, overlay: bool)
    ensures MergedFields(x, MergedFields(y, z, overlay), overlay)
              == MergedFields(MergedFields(x, y, overlay), z, overlay)
            <==> forall k :: AssociatesAt(x, y, z, k, overlay)
  {
    hide Merged, MergedFields, Safe;
    var left, right := MergedFields(x, MergedFields(y, z, overlay), overlay),
        MergedFields(MergedFields(x, y, overlay), z, overlay);
    forall k ensures At(left, k) == At(right, k) <==> AssociatesAt(x, y, z, k, overlay) {
      AtMerged(y, z, k, overlay);
      AtMerged(x, MergedFields(y, z, overlay), k, overlay);
      AtMerged(x, y, k, overlay);
      AtMerged(MergedFields(x, y, overlay), z, k, overlay);
    }
    SameFields(left, right);
  }

  lemma SameFields(left: map<string, Json>, right: map<string, Json>)
    ensures left == right <==> forall k :: At(left, k) == At(right, k)
  {
    if forall k :: At(left, k) == At(right, k) {
      assert forall k :: k in left <==> At(left, k).Some?;
      assert forall k :: k in right <==> At(right, k).Some?;
      assert forall k :: k in left ==> At(left, k) == Some(left[k]);
      assert forall k :: k in right ==> At(right, k) == Some(right[k]);
    }
  }

  lemma AssociatesInFields(x: map<string, Json>, y: map<string, Json>, z: map<string, Json>, key: Option<string>,
      overlay: bool)
    ensures Associates(Some(Obj(x)), Some(Obj(y)), Some(Obj(z)), key, overlay)
            <==> MergedFields(x, MergedFields(y, z, overlay), overlay)
                 == MergedFields(MergedFields(x, y, overlay), z, overlay)
  {
    hide MergedFields;
    MergeOfObjects(y, z, key, overlay);
    MergeOfObjects(x, MergedFields(y, z, overlay), key, overlay);
    MergeOfObjects(x, y, key, overlay);
    MergeOfObjects(MergedFields(x, y, overlay), z, key, overlay);
  }

  lemma MergeOfObjects(x: map<string, Json>, y: map<string, Json>, key: Option<string>, overlay: bool)
    ensures Merged(Some(Obj(x)), Some(Obj(y)), key, overlay) == Some(Obj(MergedFields(x, y, overlay)))
  {
  }

  lemma UnseparatedInFields(x: map<string, Json>, y: map<string, Json>, z: map<string, Json>, key: Option<string>,
      overlay: bool)
    ensures Unseparated(Some(Obj(x)), Some(Obj(y)), Some(Obj(z)), key, overlay)
            <==> forall k :: Unseparated(At(x, k), At(y, k), At(z, k), Some(k), overlay)
  {
    hide MergedFields, Merged, Absorbed;
  }

  /** Deep merges associate exactly when the sanitized values are unseparated: a merged value is safe, so sanitizing
      it again takes nothing away. */
  lemma DeepMergeAssociatesIff(a: Option<Json>, b: Option<Json>, c: Option<Json>, overlay: bool)
    ensures DeepMerge(a, DeepMerge(b, c, overlay), overlay) == DeepMerge(DeepMerge(a, b, overlay), c, overlay)
            <==> Unseparated(Sanitized(a), Sanitized(b), Sanitized(c), None, overlay)
  {
    hide Merged, Unseparated, Sanitize, Safe;
    AssociatesIff(Sanitized(a), Sanitized(b), Sanitized(c), None, overlay);
  }

  /** Values of the same kind, and so on at every path they share. */
  predicate SameKinds(a: Json, b: Json)
    decreases a
  {
    && (a.Obj? <==> b.Obj?) && (a.Arr? <==> b.Arr?)
    && (a.Obj? ==> forall k :: k in a.fields && k in b.fields ==> SameKinds(a.fields[k], b.fields[k]))
  }

  lemma {:induction false} SameKindsAreUnseparated(a: Json, b: Json, c: Json, key: Option<string>, overlay: bool)
    requires SameKinds(a, b)
    ensures Unseparated(Some(a), Some(b), Some(c), key, overlay)
    decreases c
  {
    hide Merged;
    if a.Obj? && c.Obj? {
      var x, y, z := a.fields, b.fields, c.fields;
      forall k | k in x && k in y && k in z ensures Unseparated(At(x, k), At(y, k), At(z, k), Some(k), overlay) {
        SameKindsAreUnseparated(x[k], y[k], z[k], Some(k), overlay);
      }
    }
  }

  /** On trees of the same kinds at the paths they share, deep merges associate. */
  lemma SameKindsAssociate(a: Json, b: Json, c: Json, overlay: bool)
    requires SameKinds(Sanitize(a), Sanitize(b))
    ensures DeepMerge(Some(a), DeepMerge(Some(b), Some(c), overlay), overlay)
              == DeepMerge(DeepMerge(Some(a), Some(b), overlay), Some(c), overlay)
  {
    hide Merged, Unseparated, Sanitize, Safe, SameKinds;
    SameKindsAreUnseparated(Sanitize(a), Sanitize(b), Sanitize(c), None, overlay);
    DeepMergeAssociatesIff(Some(a), Some(b), Some(c), overlay);
  }

  /** A null between two objects keeps the outer two apart in one order only. */
  lemma NullSeparates()
    ensures var a, b, c := Obj(map["x" := Obj(map["p" := Int(1)])]), Obj(map["x" := Null]), Obj(map["x" := Obj(map[])]);
            DeepMerge(Some(a), DeepMerge(Some(b), Some(c), false), false)
            != DeepMerge(DeepMerge(Some(a), Some(b), false), Some(c), false)
  {
    hide Merged, MergedFields, Sanitize, Safe, DeepMerge, IsUnsafeKey;
    var one, none := map["p" := Int(1)], map[];
    OneFieldIsSafe("p", Int(1));
    NoFieldIsSafe();
    OneFieldIsSafe("x", Obj(one));
    OneFieldIsSafe("x", Null);
    OneFieldIsSafe("x", Obj(none));
    var x, y, z := map["x" := Obj(one)], map["x" := Null], map["x" := Obj(none)];
    assert At(x, "x") == Some(Obj(one)) && At(y, "x") == Some(Null) && At(z, "x") == Some(Obj(none));
    MergeOfObjects(one, none, Some("x"), false);
    assert "p" in MergedFields(one, none, false) && "p" !in none;
    assert !Unseparated(At(x, "x"), At(y, "x"), At(z, "x"), Some("x"), false);
    UnseparatedInFields(x, y, z, None, false);
    DeepMergeAssociatesIff(Some(Obj(x)), Some(Obj(y)), Some(Obj(z)), false);
  }

  lemma OneFieldIsSafe(k: string, v: Json)
    ensures Safe(v) && k in {"p", "x"} ==> Safe(Obj(map[k := v]))
    ensures v in {Null, Int(1)} ==> Safe(v)
  {
  }

  lemma NoFieldIsSafe()
    ensures Safe(Obj(map[]))
  {
  }

  // ----- profile overlays

  const INHERITED_ALIAS_REQUIREMENT_KEYS: set<string> := {"model", "models", "fallbackModels", "requirement", "variant",
      "reasoning"}

  predicate HasDirectSelector(entry: map<string, Json>)
  {
    || ("model" in entry && entry["model"].Str? && entry["model"].s != "")
    || ("models" in entry && entry["models"].Arr? && entry["models"].items != [])
    || ("fallbackModels" in entry && entry["fallbackModels"].Arr? && entry["fallbackModels"].items != [])
    || ("requirement" in entry && entry["requirement"].Obj?)
  }

  /** An entry that takes its models from an alias, and from nothing else. */
  predicate AliasOnly(entry: map<string, Json>)
  {
    "alias" in entry && entry["alias"].Str? && entry["alias"].s != "" && !HasDirectSelector(entry)
  }

  function WithoutInherited(baseEntry: map<string, Json>, overlayEntry: map<string, Json>): map<string, Json>
  {
    if AliasOnly(overlayEntry) then baseEntry - INHERITED_ALIAS_REQUIREMENT_KEYS else baseEntry
  }

  function PreparedEntry(base: map<string, Json>, over: map<string, Json>, name: string): Json
    requires name in base
  {
    if name in over && base[name].Obj? && over[name].Obj?
    then Obj(WithoutInherited(base[name].fields, over[name].fields))
    else base[name]
  }

  function PreparedAgents(base: map<string, Json>, over: map<string, Json>): map<string, Json>
  {
    map name | name in base :: PreparedEntry(base, over, name)
  }

  method PrepareAgentOverlayBase(base: map<string, Json>, over: map<string, Json>) returns (prepared: map<string, Json>)
    ensures prepared == PreparedAgents(base, over)
  {
    hide WithoutInherited;
    prepared := base;
    var left := over.Keys;
    while left != {}
      invariant left <= over.Keys && prepared.Keys == base.Keys
      invariant forall name :: name in base ==>
                  prepared[name] == if name in left then base[name] else PreparedEntry(base, over, name)
      decreases |left|
    {
      var name :| name in left;
      left := left - {name};
      if name in base && base[name].Obj? && over[name].Obj? {
        prepared := prepared[name := Obj(WithoutInherited(base[name].fields, over[name].fields))];
      }
    }
  }

  function MergeProfileOverlay(base: Option<Json>, over: Option<Json>, agentMap: bool): (r: Option<Json>)
    ensures r.Some? ==> Safe(r.value)
    ensures r.None? <==> base.None? && over.None?
  {
    if base.None? || over.None? || !base.value.Obj? || !over.value.Obj? then DeepMerge(base, over, true)
    else
      var b, o := base.value.fields, over.value.fields;
      if agentMap then DeepMerge(Some(Obj(PreparedAgents(b, o))), over, true)
      else if "agents" in b && "agents" in o && b["agents"].Obj? && o["agents"].Obj? then
        DeepMerge(Some(Obj(b["agents" := Obj(PreparedAgents(b["agents"].fields, o["agents"].fields))])), over, true)
      else DeepMerge(base, over, true)
  }

  lemma SanitizedAt(fields: map<string, Json>, k: string)
    requires !IsUnsafeKey(k)
    ensures At(Sanitize(Obj(fields)).fields, k) == Sanitized(At(fields, k))
  {
  }

  lemma DeepMergeOfObjects(base: map<string, Json>, over: map<string, Json>, k: string, overlay: bool)
    requires !IsUnsafeKey(k)
    ensures var r := DeepMerge(Some(Obj(base)), Some(Obj(over)), overlay);
            r.value.Obj?
                && At(r.value.fields, k) == Merged(Sanitized(At(base, k)), Sanitized(At(over, k)), Some(k), overlay)
  {
    hide Merged, MergedFields, Safe;
    var x, y := Sanitize(Obj(base)).fields, Sanitize(Obj(over)).fields;
    MergeOfObjects(x, y, None, overlay);
    AtMerged(x, y, k, overlay);
    SanitizedAt(base, k);
    SanitizedAt(over, k);
  }

  /** What an overlay makes of one field of an agent that the base has too: an entry with only an alias loses what
      selected its models before, and nothing else. */
  lemma OverlaidAgentField(base: map<string, Json>, over: map<string, Json>, name: string, k: string)
    requires name in base && name in over && base[name].Obj? && over[name].Obj?
    requires !IsUnsafeKey(name) && !IsUnsafeKey(k)
    ensures var agents := MergeProfileOverlay(Some(Obj(base)), Some(Obj(over)), true).value;
            && agents.Obj? && name in agents.fields && agents.fields[name].Obj?
            && At(agents.fields[name].fields, k)
               == if k in INHERITED_ALIAS_REQUIREMENT_KEYS && AliasOnly(over[name].fields) then
                   Sanitized(At(over[name].fields, k))
                  else Merged(Sanitized(At(base[name].fields, k)), Sanitized(At(over[name].fields, k)), Some(k), true)
  {
    hide Merged, MergedFields, AliasOnly, Sanitize, DeepMerge, Safe;
    var entry, overEntry := WithoutInherited(base[name].fields, over[name].fields), over[name].fields;
    DeepMergeOfObjects(PreparedAgents(base, over), over, name, true);
    OverlaidEntry(entry, overEntry, name, k);
    MergedWithNone(Sanitized(At(overEntry, k)), Some(k), true);
  }

  lemma MergedWithNone(over: Option<Json>, key: Option<string>, overlay: bool)
    ensures Merged(None, over, key, overlay) == over
  {
  }

  lemma OverlaidEntry(entry: map<string, Json>, overEntry: map<string, Json>, name: string, k: string)
    requires !IsUnsafeKey(k)
    ensures var r := Merged(Some(Sanitize(Obj(entry))), Some(Sanitize(Obj(overEntry))), Some(name), true);
            r.Some? && r.value.Obj?
                && At(r.value.fields, k) == Merged(Sanitized(At(entry, k)), Sanitized(At(overEntry, k)), Some(k), true)
  {
  }

  // ----- configuration layers

  /** A layer's value, absent when it was cleared. */
  datatype Layer = Layer(value: Option<Json>, profileOverlay: bool)

  const EMPTY: Option<Json> := Some(Obj(map[]))

  /** The values of the base layers, or those of the profile layers, in order. */
  function Values(layers: seq<Layer>, profileOverlay: bool): seq<Option<Json>>
  {
    if layers == [] then []
    else
      var last := layers[|layers| - 1];
      Values(layers[..|layers| - 1], profileOverlay) + if last.profileOverlay == profileOverlay then [last.value]
          else []
  }

  function BaseOf(values: seq<Option<Json>>): (r: Option<Json>)
    ensures r.Some? && Safe(r.value)
  {
    if values == [] then EMPTY else DeepMerge(BaseOf(values[..|values| - 1]), values[|values| - 1], false)
  }

  function ProfileOf(values: seq<Option<Json>>): (r: Option<Json>)
    ensures r.Some? && Safe(r.value)
  {
    if values == [] then EMPTY else MergeProfileOverlay(ProfileOf(values[..|values| - 1]), values[|values| - 1], false)
  }

  /** All that the merge of the layers depends on. */
  function Combined(base: seq<Option<Json>>, profile: seq<Option<Json>>): Option<Json>
  {
    if profile == [] then BaseOf(base) else MergeProfileOverlay(BaseOf(base), ProfileOf(profile), false)
  }

  function MergedLayers(layers: seq<Layer>): Option<Json> { Combined(Values(layers, false), Values(layers, true)) }

  lemma NoLayers()
    ensures Values([], false) == Values([], true) == []
    ensures BaseOf([]) == ProfileOf([]) == EMPTY
  {
  }

  lemma ValuesSnoc(layers: seq<Layer>, layer: Layer, p: bool)
    ensures Values(layers + [layer], p)
            == if layer.profileOverlay == p then Values(layers, p) + [layer.value] else Values(layers, p)
  {
  }

  lemma FoldsSnoc(values: seq<Option<Json>>, value: Option<Json>)
    ensures BaseOf(values + [value]) == DeepMerge(BaseOf(values), value, false)
    ensures ProfileOf(values + [value]) == MergeProfileOverlay(ProfileOf(values), value, false)
  {
  }

  method MergeConfigLayers(layers: seq<Layer>) returns (merged: Option<Json>)
    ensures merged == MergedLayers(layers)
    ensures merged.Some? && Safe(merged.value)
  {
    hide DeepMerge, MergeProfileOverlay, Safe, Values, BaseOf, ProfileOf;
    NoLayers();
    var base, profile, hasProfile := EMPTY, EMPTY, false;
    for i := 0 to |layers|
      invariant base == BaseOf(Values(layers[..i], false))
      invariant profile == ProfileOf(Values(layers[..i], true))
      invariant hasProfile == (Values(layers[..i], true) != [])
    {
      var layer := layers[i];
      ghost var before := layers[..i];
      assert layers[..i + 1] == before + [layer];
      ValuesSnoc(before, layer, false);
      ValuesSnoc(before, layer, true);
      FoldsSnoc(Values(before, layer.profileOverlay), layer.value);
      if layer.profileOverlay {
        profile := MergeProfileOverlay(profile, layer.value, false);
        hasProfile := true;
      } else {
        base := DeepMerge(base, layer.value, false);
      }
    }
    assert layers[..|layers|] == layers;
    return if hasProfile then MergeProfileOverlay(base, profile, false) else base;
  }

  lemma {:induction false} ValuesConcat(a: seq<Layer>, b: seq<Layer>, p: bool)
    ensures Values(a + b, p) == Values(a, p) + Values(b, p)
  {
    if b == [] {
      assert a + b == a;
    } else {
      assert (a + b)[..|a + b| - 1] == a + b[..|b| - 1];
      ValuesConcat(a, b[..|b| - 1], p);
    }
  }

  /** How base layers and profile layers interleave makes no difference. */
  lemma InterleavingIsIrrelevant(a: seq<Layer>, x: Layer, y: Layer, b: seq<Layer>)
    requires x.profileOverlay != y.profileOverlay
    ensures MergedLayers(a + [x, y] + b) == MergedLayers(a + [y, x] + b)
  {
    hide Combined;
    forall p: bool ensures Values(a + [x, y] + b, p) == Values(a + [y, x] + b, p) {
      ValuesConcat(a + [x, y], b, p);
      ValuesConcat(a + [y, x], b, p);
      ValuesConcat(a, [x, y], p);
      ValuesConcat(a, [y, x], p);
      assert Values([x, y], p) == Values([y, x], p) by {
        assert [x, y] == [x] + [y] && [y, x] == [y] + [x];
        ValuesConcat([x], [y], p);
        ValuesConcat([y], [x], p);
      }
    }
  }

  lemma {:induction false} AbsentValueChangesNothing(a: seq<Option<Json>>, b: seq<Option<Json>>)
    ensures BaseOf(a + [None] + b) == BaseOf(a + b)
    ensures ProfileOf(a + [None] + b) == ProfileOf(a + b)
  {
    hide Safe, Sanitize;
    if b == [] {
      assert a + [None] + b == a + [None] && a + b == a;
      FoldsSnoc(a, None);
      MergeOfNothing(BaseOf(a));
      MergeOfNothing(ProfileOf(a));
    } else {
      hide DeepMerge, MergeProfileOverlay;
      var front, last := b[..|b| - 1], b[|b| - 1];
      AbsentValueChangesNothing(a, front);
      assert a + [None] + b == (a + [None] + front) + [last] && a + b == (a + front) + [last];
      FoldsSnoc(a + [None] + front, last);
      FoldsSnoc(a + front, last);
    }
  }

  lemma MergeOfNothing(v: Option<Json>)
    requires v.Some? && Safe(v.value)
    ensures DeepMerge(v, None, false) == v && MergeProfileOverlay(v, None, false) == v
    ensures MergeProfileOverlay(v, EMPTY, false) == if v.value.Obj? then v else EMPTY
  {
    if v.value.Obj? {
      var fields := v.value.fields;
      MergeOfObjects(fields, map[], None, true);
      assert MergedFields(fields, map[], true) == fields;
      assert Sanitize(Obj(map[])) == Obj(map[]);
    } else {
      assert Sanitize(Obj(map[])) == Obj(map[]);
    }
  }

  /** The value of the last base layer that has one. */
  function LastBaseValue(layers: seq<Layer>): Option<Json>
  {
    if layers == [] then None
    else
      var last := layers[|layers| - 1];
      if !last.profileOverlay && last.value.Some? then last.value else LastBaseValue(layers[..|layers| - 1])
  }

  /** Base layers merge to an object exactly if the last one that has a value is one, or none has. */
  lemma {:induction false} BaseIsObjectIff(layers: seq<Layer>)
    ensures var last := LastBaseValue(layers);
            BaseOf(Values(layers, false)).value.Obj? <==> last.None? || last.value.Obj?
  {
    hide Safe, Sanitize, DeepMerge, Values, BaseOf;
    NoLayers();
    if layers != [] {
      var front, last := layers[..|layers| - 1], layers[|layers| - 1];
      assert layers == front + [last];
      BaseIsObjectIff(front);
      ValuesSnoc(front, last, false);
      if !last.profileOverlay {
        FoldsSnoc(Values(front, false), last.value);
        KindOfMerge(BaseOf(Values(front, false)).value, last.value);
      }
    }
  }

  lemma KindOfMerge(base: Json, over: Option<Json>)
    requires Safe(base)
    ensures var r := DeepMerge(Some(base), over, false);
            r.Some? && (r.value.Obj? <==> if over.Some? then over.value.Obj? else base.Obj?)
  {
  }

  predicate HasProfileLayer(layers: seq<Layer>) { exists k :: 0 <= k < |layers| && layers[k].profileOverlay }

  lemma {:induction false} ProfileLayersHaveValues(layers: seq<Layer>)
    ensures Values(layers, true) != [] <==> HasProfileLayer(layers)
  {
    if layers != [] {
      var front := layers[..|layers| - 1];
      ProfileLayersHaveValues(front);
      if HasProfileLayer(layers) {
        var k :| 0 <= k < |layers| && layers[k].profileOverlay;
        assert k == |layers| - 1 || front[k].profileOverlay;
      }
    }
  }

  /** A cleared layer merges as if it had been left out, with one exception: the only profile layer still empties a base
      whose last value is something other than an object. */
  lemma ClearedLayerIsOmittedIff(a: seq<Layer>, p: bool, b: seq<Layer>)
    ensures MergedLayers(a + [Layer(None, p)] + b) == MergedLayers(a + b)
            <==> || !p || HasProfileLayer(a + b)
                 || LastBaseValue(a + b).None? || LastBaseValue(a + b).value.Obj?
  {
    hide Safe, DeepMerge, MergeProfileOverlay, BaseOf, ProfileOf, Values, LastBaseValue, HasProfileLayer;
    BaseIsObjectIff(a + b);
    ProfileLayersHaveValues(a + b);
    ClearedValueIsOmittedIff(a, p, b);
  }

  /** The exception at its smallest. */
  lemma OnlyProfileLayerEmpties(v: Json)
    requires v.Str?
    ensures MergedLayers([Layer(Some(v), false)]) == Some(v)
    ensures MergedLayers([Layer(Some(v), false), Layer(None, true)]) == EMPTY
  {
    hide DeepMerge, MergeProfileOverlay, Values, BaseOf, ProfileOf;
    var base, cleared := Layer(Some(v), false), Layer(None, true);
    var none: seq<Option<Json>> := [];
    NoLayers();
    forall p: bool ensures Values([base], p) == if p then [] else [Some(v)] {
      assert [base] == [] + [base] && none + [Some(v)] == [Some(v)];
      ValuesSnoc([], base, p);
    }
    forall p: bool ensures Values([base, cleared], p) == if p then [None] else [Some(v)] {
      assert [base, cleared] == [base] + [cleared] && none + [None] == [None];
      ValuesSnoc([base], cleared, p);
    }
    assert none + [Some(v)] == [Some(v)] && none + [None] == [None];
    FoldsSnoc(none, Some(v));
    FoldsSnoc(none, None);
    OverEmpty(v);
    MergeOfNothing(EMPTY);
    MergeOfNothing(Some(v));
  }

  lemma OverEmpty(v: Json)
    requires v.Str?
    ensures DeepMerge(EMPTY, Some(v), false) == Some(v) && Safe(v)
  {
  }

  lemma ClearedValueIsOmittedIff(a: seq<Layer>, p: bool, b: seq<Layer>)
    ensures MergedLayers(a + [Layer(None, p)] + b) == MergedLayers(a + b)
            <==> !p || Values(a + b, true) != [] || BaseOf(Values(a + b, false)).value.Obj?
  {
    hide Safe, DeepMerge, MergeProfileOverlay, BaseOf, ProfileOf, Values;
    var layer := Layer(None, p);
    forall q: bool
      ensures Values(a + b, q) == Values(a, q) + Values(b, q)
      ensures Values(a + [layer] + b, q)
              == if p == q then Values(a, q) + [None] + Values(b, q) else Values(a, q) + Values(b, q)
    {
      ValuesConcat(a, b, q);
      ValuesConcat(a + [layer], b, q);
      ValuesSnoc(a, layer, q);
    }
    AbsentValueChangesNothing(Values(a, p), Values(b, p));
    NoLayers();
    MergeOfNothing(BaseOf(Values(a + b, false)));
    MergeOfNothing(EMPTY);
    if p && Values(a + b, true) == [] { OnlyAbsent(Values(a, true), Values(b, true)); }
  }

  lemma OnlyAbsent(a: seq<Option<Json>>, b: seq<Option<Json>>)
    requires a + b == []
    ensures a + [None] + b == [None] && ProfileOf(a + [None] + b) == EMPTY
  {
  }
}
