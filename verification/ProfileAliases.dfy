/** Agents that take their models from an agent of another profile: resolving such aliases along their chain. */
module ProfileAliases {
  import opened Wrappers
  import opened Text
  import opened JsonValues
  import opened Sorting
  import opened ConfigMerge

  // ----- qualified aliases

  datatype AliasParse = Unqualified | Qualified(profile: string, agent: string) | BadAlias

  predicate IsProfileChar(c: char) { 'A' <= c <= 'Z' || 'a' <= c <= 'z' || IsDigit(c) || c == '_' || c == '-' }

  predicate IsProfileName(s: string) { s != "" && forall i :: 0 <= i < |s| ==> IsProfileChar(s[i]) }

  /** `parseQualifiedAgentAlias` */
  function ParseAlias(alias: string): AliasParse
  {
    var separator := IndexOf(alias, ':');
    if separator < 0 then Unqualified
    else if !IsProfileName(alias[..separator]) || alias[separator + 1..] == "" then BadAlias
    else Qualified(alias[..separator], alias[separator + 1..])
  }

  /** A qualified alias is a profile name, a colon and an agent name, and it is read back as those; an agent name may
      itself hold colons. */
  lemma QualifiedIff(alias: string, profile: string, agent: string)
    ensures ParseAlias(alias) == Qualified(profile, agent)
            <==> alias == profile + ":" + agent && IsProfileName(profile) && agent != ""
    ensures ParseAlias(alias) == Unqualified <==> ':' !in alias
  {
    var separator := IndexOf(alias, ':');
    if separator >= 0 { assert alias == alias[..separator] + ":" + alias[separator + 1..]; }
    if alias == profile + ":" + agent && IsProfileName(profile) {
      FirstColon(profile, agent);
      assert alias[..|profile|] == profile && alias[|profile| + 1..] == agent;
    }
  }

  lemma FirstColon(profile: string, agent: string)
    requires IsProfileName(profile)
    ensures IndexOf(profile + ":" + agent, ':') == |profile|
  {
    var s, i := profile + ":" + agent, IndexOf(profile + ":" + agent, ':');
    assert s[|profile|] == ':';
    assert forall k :: 0 <= k < |profile| ==> s[k] == profile[k] && s[k] != ':';
    assert i >= 0;
    assert forall k :: 0 <= k < i ==> s[..i][k] == s[k];
  }

  // ----- direct requirements

  /** How model entries of the configuration are read is not modelled: any functions of them will do. */
  datatype Readers = Readers(canonical: Json -> Json, fallback: Json -> Json,
      modelString: (string, Option<string>, Option<string>) -> Json)

  datatype Requirement = Requirement(fallbackChain: seq<Json>, reasoning: Option<string>, variant: Option<string>,
      rest: map<string, Json>)

  /** `normalizeReasoning` */
  function NormalReasoning(r: Option<string>): Option<string> { if r == Some("none") then Some("off") else r }

  function ListField(entry: Json, name: string): seq<Json> {
    match ArrayField(entry, name) case Some(items) => items case None => []
  }

  function NormalRequirement(read: Readers, req: Json): Requirement
    requires req.Obj?
  {
    Requirement(Map(ListField(req, "fallbackChain"), read.fallback), NormalReasoning(StringField(req, "reasoning")),
                StringField(req, "variant"), req.fields - {"fallbackChain", "reasoning", "variant"})
  }

  function RequirementField(entry: Json): Option<Json>
  {
    match Field(entry, "requirement")
    case Some(Obj(fields)) => Some(Obj(fields))
    case _ => None
  }

  /** The entry's own reasoning and variant, where it has them. */
  function WithEntryIntensity(req: Requirement, entry: Json): Requirement
  {
    var reasoning, variant := NormalReasoning(StringField(entry, "reasoning")), StringField(entry, "variant");
    req.(reasoning := if reasoning.Some? then reasoning else req.reasoning,
         variant := if variant.Some? then variant else req.variant)
  }

  /** The chain of a model and its fallbacks. */
  function ModelChain(read: Readers, entry: Json): seq<Json>
  {
    var model := StringField(entry, "model");
    (if model.Some? && model.value != ""
     then [read.modelString(model.value, StringField(entry, "variant"), StringField(entry, "reasoning"))]
     else [])
    + Map(ListField(entry, "fallbackModels"), read.fallback)
  }

  /** `normalizeDirectRequirement`: what an entry requires by itself, if it does. */
  function DirectRequirement(read: Readers, entry: Json): Option<Requirement>
  {
    var models, requirement := ListField(entry, "models"), RequirementField(entry);
    if models != [] then
      var chain := Map(models, read.canonical);
      var base := if requirement.Some? then NormalRequirement(read, requirement.value).(fallbackChain := chain)
                  else Requirement(chain, None, None, map[]);
      Some(WithEntryIntensity(base, entry))
    else if requirement.Some? then Some(NormalRequirement(read, requirement.value))
    else if ModelChain(read, entry) == [] then None
    else Some(WithEntryIntensity(Requirement(ModelChain(read, entry), None, None, map[]), entry))
  }

  lemma MapSnoc(items: seq<Json>, f: Json -> Json, i: nat)
    requires i < |items|
    ensures Map(items[..i + 1], f) == Map(items[..i], f) + [f(items[i])]
  {
    hide Map;
  }

  method NormalizeDirectRequirement(read: Readers, entry: Json) returns (r: Option<Requirement>)
    ensures r == DirectRequirement(read, entry)
  {
    hide NormalRequirement, Map;
    var models, requirement := ListField(entry, "models"), RequirementField(entry);
    var reasoning, variant := NormalReasoning(StringField(entry, "reasoning")), StringField(entry, "variant");
    if |models| > 0 {
      var req := if requirement.Some? then NormalRequirement(read, requirement.value)
          else Requirement([], None, None, map[]);
      req := req.(fallbackChain := Map(models, read.canonical));
      if reasoning != None { req := req.(reasoning := reasoning); }
      if variant != None { req := req.(variant := variant); }
      return Some(req);
    }
    if requirement.Some? { return Some(NormalRequirement(read, requirement.value)); }
    var chain := [];
    var model := StringField(entry, "model");
    if model.Some? && model.value != "" {
      chain := chain + [read.modelString(model.value, variant, StringField(entry, "reasoning"))];
      assert chain == [read.modelString(model.value, variant, StringField(entry, "reasoning"))];
    }
    ghost var head := chain;
    var fallbacks := ListField(entry, "fallbackModels");
    for i := 0 to |fallbacks|
      invariant chain == head + Map(fallbacks[..i], read.fallback)
    {
      MapSnoc(fallbacks, read.fallback, i);
      chain := chain + [read.fallback(fallbacks[i])];
    }
    assert fallbacks[..|fallbacks|] == fallbacks;
    assert chain == ModelChain(read, entry);
    if |chain| == 0 { return None; }
    var req := Requirement(chain, None, None, map[]);
    if reasoning != None { req := req.(reasoning := reasoning); }
    if variant != None { req := req.(variant := variant); }
    return Some(req);
  }

  /** An entry requires something by itself exactly when the overlay merge takes it to select its own models. */
  lemma DirectIffSelects(read: Readers, entry: map<string, Json>)
    ensures DirectRequirement(read, Obj(entry)).Some? <==> HasDirectSelector(entry)
  {
    hide NormalRequirement, WithEntryIntensity, Map;
  }

  predicate SetsIntensity(entry: Json) { StringField(entry, "reasoning").Some? || StringField(entry, "variant").Some? }

  /** `applyAliasRequirementIntensity`: a reasoning drops the variant, a variant drops the reasoning. */
  function ApplyIntensity(req: Requirement, entry: Json): Requirement
  {
    var reasoning, variant := NormalReasoning(StringField(entry, "reasoning")), StringField(entry, "variant");
    if reasoning.Some? then req.(reasoning := reasoning, variant := None)
    else if variant.Some? then req.(variant := variant, reasoning := None)
    else req
  }

  // ----- chains of agents

  /** A profile, or the active configuration, and an agent in it. */
  datatype Node = Node(profile: Option<string>, agent: string)

  datatype Descriptor = Descriptor(invalid: bool, value: Option<Json>)

  datatype Setting = Setting(active: map<string, Json>, baseAgents: map<string, Json>,
      profiles: map<string, Descriptor>, read: Readers)

  datatype Fault =
    | Circular
    | NotFound
    | NoRequirement
    | InvalidAlias(alias: string)
    | ProfileMissing(name: string)
    | ProfileInvalid(name: string)
    | ProfileEmpty(name: string)

  /** An error names the path of agents that led to it. */
  datatype AliasError = AliasError(fault: Fault, path: seq<Node>)

  /** The agents of a profile: its overlay on the base ones. */
  function View(env: Setting, name: string): Result<map<string, Json>, Fault>
  {
    if name !in env.profiles then Failure(ProfileMissing(name))
    else if env.profiles[name].invalid then Failure(ProfileInvalid(name))
    else if env.profiles[name].value.None? || !env.profiles[name].value.value.Obj? then Failure(ProfileEmpty(name))
    else
      ViewIsObject(env.baseAgents, OverlayOf(env.profiles[name].value.value));
      Success(MergeProfileOverlay(Some(Obj(env.baseAgents)), OverlayOf(env.profiles[name].value.value),
          true).value.fields)
  }

  function OverlayOf(value: Json): (r: Option<Json>)
    ensures r.Some? ==> r.value.Obj?
  {
    match Field(value, "agents")
    case Some(Obj(fields)) => Some(Obj(fields))
    case _ => None
  }

  lemma ViewIsObject(base: map<string, Json>, overlay: Option<Json>)
    requires overlay.Some? ==> overlay.value.Obj?
    ensures var r := MergeProfileOverlay(Some(Obj(base)), overlay, true); r.Some? && r.value.Obj?
  {
    hide Safe, MergedFields;
  }

  function AgentsIn(env: Setting, profile: Option<string>): Result<map<string, Json>, Fault>
  {
    if profile.None? then Success(env.active) else View(env, profile.value)
  }

  /** What JavaScript takes for true. */
  predicate Truthy(v: Json) { v != Null && v != Bool(false) && v != Int(0) && v != Str("") }

  datatype Stop = Requires(requirement: Requirement) | Leads(next: Node, entry: Json) | Fails(fault: Fault)

  /** What becomes of one agent: it requires something itself, or its alias leads on, or neither. */
  function Step(env: Setting, node: Node): Stop
  {
    match AgentsIn(env, node.profile)
    case Failure(fault) => Fails(fault)
    case Success(agents) =>
      if node.agent !in agents || !Truthy(agents[node.agent]) then Fails(NotFound)
      else
        var entry := agents[node.agent];
        match DirectRequirement(env.read, entry)
        case Some(requirement) => Requires(requirement)
        case None =>
          match StringField(entry, "alias")
          case None => Fails(NoRequirement)
          case Some(alias) =>
            if alias == "" then Fails(NoRequirement)
            else
              match ParseAlias(alias)
              case BadAlias => Fails(InvalidAlias(alias))
              case Qualified(profile, agent) => Leads(Node(Some(profile), agent), entry)
              case Unqualified => Leads(Node(node.profile, alias), entry)
  }

  /** The agents there are: of the active configuration and of all usable profiles. */
  ghost function Existing(env: Setting): set<Node>
  {
    (set a | a in env.active :: Node(None, a))
    + set p, a | p in env.profiles && View(env, p).Success? && a in View(env, p).value :: Node(Some(p), a)
  }

  lemma ViewIsOfAProfile(env: Setting, name: string)
    ensures View(env, name).Success? ==> name in env.profiles
  {
    hide MergeProfileOverlay;
  }

  lemma StepExists(env: Setting, node: Node)
    requires !Step(env, node).Fails?
    ensures node in Existing(env)
  {
    hide DirectRequirement, ParseAlias, View, Truthy;
    if node.profile.Some? { ViewIsOfAProfile(env, node.profile.value); }
  }

  ghost function Members(nodes: seq<Node>): set<Node> { set i | 0 <= i < |nodes| :: nodes[i] }

  /** The recursion of `resolve`: the agents on the way are those it was entered for. */
  ghost function Resolution(env: Setting, node: Node, stack: seq<Node>): Result<Requirement, AliasError>
    decreases Existing(env) - Members(stack)
  {
    if node in stack then Failure(AliasError(Circular, stack + [node]))
    else
      match Step(env, node)
      case Fails(fault) => Failure(AliasError(fault, stack + [node]))
      case Requires(requirement) => Success(requirement)
      case Leads(next, entry) =>
        StepExists(env, node);
        MembersGrow(stack, node, Existing(env));
        match Resolution(env, next, stack + [node])
        case Failure(e) => Failure(e)
        case Success(requirement) => Success(ApplyIntensity(requirement, entry))
  }

  lemma MembersGrow(stack: seq<Node>, node: Node, all: set<Node>)
    requires node !in stack && node in all
    ensures Members(stack + [node]) == Members(stack) + {node}
    ensures all - Members(stack + [node]) < all - Members(stack)
  {
    var longer := stack + [node];
    assert longer[|stack|] == node;
    forall x ensures x in Members(longer) <==> x in Members(stack) || x == node {
      if x in Members(stack) {
        var i :| 0 <= i < |stack| && stack[i] == x;
        assert longer[i] == x;
      }
    }
    assert node !in Members(stack);
    assert node in all - Members(stack) && node !in all - Members(longer);
  }

  // ----- what a resolution means

  /** Agents each of which leads to the next. */
  ghost predicate IsChain(env: Setting, path: seq<Node>)
  {
    path != [] && forall i :: 0 <= i < |path| - 1 ==> LeadsTo(env, path[i], path[i + 1])
  }

  predicate LeadsTo(env: Setting, node: Node, next: Node) { Step(env, node).Leads? && Step(env, node).next == next }

  predicate NoRepeat(path: seq<Node>) { forall i, j :: 0 <= i < j < |path| ==> path[i] != path[j] }

  function Last(path: seq<Node>): Node
    requires path != []
  {
    path[|path| - 1]
  }

  function Front(path: seq<Node>): seq<Node>
    requires path != []
  {
    path[..|path| - 1]
  }

  /** The requirement at the end of a chain, with the intensities of the entries on the way applied from the end on. */
  ghost function Intensified(env: Setting, path: seq<Node>, direct: Requirement): Requirement
    requires IsChain(env, path)
  {
    if |path| == 1 then direct
    else
      assert LeadsTo(env, path[0], path[1]);
      ApplyIntensity(Intensified(env, Tail(env, path), direct), Step(env, path[0]).entry)
  }

  ghost function Tail(env: Setting, path: seq<Node>): (t: seq<Node>)
    requires IsChain(env, path) && |path| > 1
    ensures IsChain(env, t) && t == path[1..]
  {
    var t := path[1..];
    assert forall i :: 0 <= i < |t| - 1 ==> t[i] == path[i + 1] && LeadsTo(env, path[i + 1], path[i + 1 + 1]);
    t
  }

  /** The chain from the entered agent ends where the result says it does. */
  ghost predicate EndsChain(env: Setting, path: seq<Node>, result: Result<Requirement, AliasError>)
  {
    && IsChain(env, path)
    && match result
       case Success(requirement) =>
         && Step(env, Last(path)).Requires?
         && requirement == Intensified(env, path, Step(env, Last(path)).requirement)
       case Failure(e) =>
         if e.fault == Circular then Last(path) in Front(path) else Step(env, Last(path)) == Fails(e.fault)
  }

  /** A chain entered with others before it: it runs without a repeat to its end, or to the first agent it meets
      again. */
  lemma {:induction false} ResolutionFollows(env: Setting, node: Node, stack: seq<Node>) returns (path: seq<Node>)
    requires NoRepeat(stack)
    ensures path != [] && path[0] == node && NoRepeat(stack + Front(path))
    ensures IsChain(env, path)
    ensures match Resolution(env, node, stack)
            case Success(_) => EndsChain(env, path, Resolution(env, node, stack)) && NoRepeat(stack + path)
            case Failure(e) =>
              && e.path == stack + path
              && if e.fault == Circular then Last(path) in stack + Front(path)
                 else Step(env, Last(path)) == Fails(e.fault) && NoRepeat(stack + path)
    decreases Existing(env) - Members(stack)
  {
    hide Existing, Members, Step, ApplyIntensity;
    path := [node];
    assert stack + Front(path) == stack;
    if node !in stack {
      NoRepeatGrows(stack, node);
      match Step(env, node)
      case Fails(fault) => StepIsNotCircular(env, node);
      case Requires(requirement) =>
      case Leads(next, entry) =>
        StepExists(env, node);
        MembersGrow(stack, node, Existing(env));
        var rest := ResolutionFollows(env, next, stack + [node]);
        path := [node] + rest;
        ChainPrepended(env, node, rest);
        assert stack + path == stack + [node] + rest;
        assert stack + Front(path) == stack + [node] + Front(rest);
        assert path[1..] == rest;
    }
  }

  lemma NoRepeatGrows(stack: seq<Node>, node: Node)
    requires NoRepeat(stack) && node !in stack
    ensures NoRepeat(stack + [node])
  {
  }

  lemma StepIsNotCircular(env: Setting, node: Node)
    ensures Step(env, node) != Fails(Circular)
  {
    hide DirectRequirement, ParseAlias;
  }

  lemma ChainPrepended(env: Setting, node: Node, rest: seq<Node>)
    requires IsChain(env, rest) && LeadsTo(env, node, rest[0])
    ensures IsChain(env, [node] + rest)
  {
  }

  /** Two chains from one agent agree as far as both go. */
  lemma {:induction false} ChainsAgree(env: Setting, a: seq<Node>, b: seq<Node>, i: nat)
    requires IsChain(env, a) && IsChain(env, b) && a[0] == b[0] && i < |a| && i < |b|
    ensures a[i] == b[i]
  {
    hide Step;
    if i > 0 {
      ChainsAgree(env, a, b, i - 1);
      assert LeadsTo(env, a[i - 1], a[i - 1 + 1]) && LeadsTo(env, b[i - 1], b[i - 1 + 1]);
    }
  }

  /** A chain that meets one of its agents again never leaves them. */
  lemma {:induction false} CycleIsKept(env: Setting, cycle: seq<Node>, path: seq<Node>, i: nat)
    requires IsChain(env, cycle) && Last(cycle) in Front(cycle)
    requires IsChain(env, path) && path[0] == cycle[0] && i < |path|
    ensures path[i] in Front(cycle)
    decreases i
  {
    hide Step;
    if i == 0 {
      assert Front(cycle)[0] == path[0];
    } else {
      CycleIsKept(env, cycle, path, i - 1);
      var k :| 0 <= k < |cycle| - 1 && Front(cycle)[k] == path[i - 1];
      assert LeadsTo(env, cycle[k], cycle[k + 1]) && LeadsTo(env, path[i - 1], path[i - 1 + 1]);
      assert k + 1 == |cycle| - 1 || Front(cycle)[k + 1] == path[i];
    }
  }

  /** No chain from an agent both ends and meets an agent again, and all chains that end do so at the same place. */
  lemma OneEnd(env: Setting, a: seq<Node>, b: seq<Node>)
    requires IsChain(env, a) && IsChain(env, b) && a[0] == b[0]
    requires !Step(env, Last(a)).Leads?
    ensures Last(b) !in Front(b)
    ensures !Step(env, Last(b)).Leads? ==> a == b
    ensures |b| <= |a| && b == a[..|b|]
  {
    hide Step;
    if Last(b) in Front(b) {
      CycleIsKept(env, b, a, |a| - 1);
      var k :| 0 <= k < |b| - 1 && Front(b)[k] == Last(a);
      assert LeadsTo(env, b[k], b[k + 1]);
    }
    forall i | 0 <= i < |a| && i < |b| ensures a[i] == b[i] { ChainsAgree(env, a, b, i); }
    assert |b| > |a| ==> LeadsTo(env, b[|a| - 1], b[|a| - 1 + 1]);
    assert |b| < |a| ==> LeadsTo(env, a[|b| - 1], a[|b| - 1 + 1]);
  }

  lemma ResolutionEnds(env: Setting, node: Node) returns (path: seq<Node>)
    ensures path != [] && path[0] == node && EndsChain(env, path, Resolution(env, node, []))
    ensures Resolution(env, node, []).Failure? ==> Resolution(env, node, []).error.path == path
  {
    hide Step, Intensified, Existing, Resolution, IsChain;
    path := ResolutionFollows(env, node, []);
    assert [] + path == path && [] + Front(path) == Front(path);
  }

  /** Aliases resolve to a requirement exactly when a chain of agents leads to one that has its own, and they resolve
      to that one, with the intensities on the way. */
  lemma ResolvesIff(env: Setting, node: Node, requirement: Requirement)
    ensures Resolution(env, node, []) == Success(requirement)
            <==> exists path :: path != [] && path[0] == node && EndsChain(env, path, Success(requirement))
  {
    hide Step, Intensified, Existing, Resolution, IsChain;
    var found := ResolutionEnds(env, node);
    if path :| path != [] && path[0] == node && EndsChain(env, path, Success(requirement)) {
      OneEnd(env, path, found);
    }
  }

  /** The circular error occurs exactly when the chain meets one of its agents again. */
  lemma CircularIff(env: Setting, node: Node)
    ensures (Resolution(env, node, []).Failure? && Resolution(env, node, []).error.fault == Circular)
            <==> exists path :: path != [] && IsChain(env, path) && path[0] == node && Last(path) in Front(path)
  {
    hide Step, Intensified, Existing, Resolution, IsChain;
    var found := ResolutionEnds(env, node);
    if path :| path != [] && IsChain(env, path) && path[0] == node && Last(path) in Front(path) {
      if !Step(env, Last(found)).Leads? { OneEnd(env, found, path); }
    }
  }

  /** Any other error is that of the agent the chain ends at, and names the whole chain. */
  lemma FailsIff(env: Setting, node: Node, e: AliasError)
    requires e.fault != Circular
    ensures Resolution(env, node, []) == Failure(e)
            <==> e.path != [] && IsChain(env, e.path) && e.path[0] == node && Step(env, Last(e.path)) == Fails(e.fault)
  {
    hide Step, Intensified, Existing, Resolution, IsChain;
    var found := ResolutionEnds(env, node);
    if e.path != [] && IsChain(env, e.path) && e.path[0] == node && Step(env, Last(e.path)) == Fails(e.fault) {
      OneEnd(env, e.path, found);
    }
  }

  /** The nearest entry on the way that sets an intensity decides both reasoning and variant, and nothing else
      changes. */
  lemma {:induction false} NearestIntensityWins(env: Setting, path: seq<Node>, direct: Requirement, k: nat)
    requires IsChain(env, path) && k < |path|
    requires forall i :: 0 <= i < k ==> Step(env, path[i]).Leads? && !SetsIntensity(Step(env, path[i]).entry)
    requires k < |path| - 1 ==> Step(env, path[k]).Leads? && SetsIntensity(Step(env, path[k]).entry)
    ensures Intensified(env, path, direct)
            == if k < |path| - 1 then ApplyIntensity(direct, Step(env, path[k]).entry) else direct
  {
    hide Step;
    if |path| > 1 {
      assert LeadsTo(env, path[0], path[1]);
      var tail := Tail(env, path);
      if k > 0 {
        assert forall i :: 0 <= i < |tail| ==> tail[i] == path[i + 1];
        NearestIntensityWins(env, tail, direct, k - 1);
      } else {
        IntensityKeepsRest(env, tail, direct);
      }
    }
  }

  lemma {:induction false} IntensityKeepsRest(env: Setting, path: seq<Node>, direct: Requirement)
    requires IsChain(env, path)
    ensures Intensified(env, path, direct).fallbackChain == direct.fallbackChain
            && Intensified(env, path, direct).rest == direct.rest
  {
    hide Step;
    if |path| > 1 {
      assert LeadsTo(env, path[0], path[1]);
      IntensityKeepsRest(env, Tail(env, path), direct);
    }
  }

  // ----- the resolver

  /** The state `resolve` shares over its calls: the agents on the way, and the views of profiles looked up before. */
  class Resolver {
    const env: Setting
    var stack: seq<Node>
    var membership: set<Node>
    var targetViews: map<string, map<string, Json>>

    constructor (env: Setting)
      ensures Valid() && this.env == env && stack == []
    {
      this.env := env;
      stack, membership, targetViews := [], {}, map[];
    }

    ghost predicate Valid()
      reads this
    {
      && membership == Members(stack)
      && forall name :: name in targetViews ==> View(env, name) == Success(targetViews[name])
    }

    method ProfileAgents(name: string) returns (r: Result<map<string, Json>, AliasError>)
      requires Valid()
      modifies this`targetViews
      ensures Valid()
      ensures r == match View(env, name)
                   case Success(view) => Success(view)
                   case Failure(fault) => Failure(AliasError(fault, stack))
    {
      hide MergeProfileOverlay;
      if name in targetViews { return Success(targetViews[name]); }
      if name !in env.profiles { return Failure(AliasError(ProfileMissing(name), stack)); }
      var descriptor := env.profiles[name];
      if descriptor.invalid { return Failure(AliasError(ProfileInvalid(name), stack)); }
      if descriptor.value.None? || !descriptor.value.value.Obj? {
        return Failure(AliasError(ProfileEmpty(name), stack));
      }
      var overlay := OverlayOf(descriptor.value.value);
      ViewIsObject(env.baseAgents, overlay);
      var view := MergeProfileOverlay(Some(Obj(env.baseAgents)), overlay, true).value.fields;
      targetViews := targetViews[name := view];
      return Success(view);
    }

    /** The stack and the membership are as before afterwards, whatever the result. */
    method Resolve(profile: Option<string>, agent: string) returns (r: Result<Requirement, AliasError>)
      requires Valid()
      modifies this
      ensures Valid() && stack == old(stack) && membership == old(membership)
      ensures r == Resolution(env, Node(profile, agent), stack)
      decreases Existing(env) - Members(stack), 1
    {
      hide Step, Existing, Members, View;
      var node := Node(profile, agent);
      MembersAre(stack, node);
      if node in membership { return Failure(AliasError(Circular, stack + [node])); }
      ghost var before := stack;
      MembersGrow(stack, node, Existing(env) + {node});
      membership := membership + {node};
      stack := stack + [node];
      r := ResolveEntered(node, before);
      assert stack[..|stack| - 1] == before;
      stack := stack[..|stack| - 1];
      membership := membership - {node};
    }

    /** What `resolve` does between entering an agent and leaving it. */
    method ResolveEntered(node: Node, ghost before: seq<Node>) returns (r: Result<Requirement, AliasError>)
      requires Valid() && node !in before && stack == before + [node]
      modifies this
      ensures Valid() && stack == old(stack) && membership == old(membership)
      ensures r == Resolution(env, node, before)
      decreases Existing(env) - Members(before), 0
    {
      hide Existing, Members, View, DirectRequirement, ParseAlias;
      var looked: Result<map<string, Json>, AliasError> := Success(env.active);
      if node.profile.Some? { looked := ProfileAgents(node.profile.value); }
      if looked.Failure? { return Failure(looked.error); }
      var agents := looked.value;
      if node.agent !in agents || !Truthy(agents[node.agent]) { return Failure(AliasError(NotFound, stack)); }
      var entry := agents[node.agent];
      var direct := NormalizeDirectRequirement(env.read, entry);
      if direct.Some? { return Success(direct.value); }
      var alias := StringField(entry, "alias");
      if alias.None? || alias.value == "" { return Failure(AliasError(NoRequirement, stack)); }
      var qualified := ParseAlias(alias.value);
      if qualified.BadAlias? { return Failure(AliasError(InvalidAlias(alias.value), stack)); }
      var next := if qualified.Qualified? then Node(Some(qualified.profile), qualified.agent)
          else Node(node.profile, alias.value);
      assert Step(env, node) == Leads(next, entry);
      StepExists(env, node);
      MembersGrow(before, node, Existing(env));
      var target := Resolve(next.profile, next.agent);
      if target.Failure? { return Failure(target.error); }
      return Success(ApplyIntensity(target.value, entry));
    }
  }

  lemma MembersAre(stack: seq<Node>, node: Node)
    ensures node in Members(stack) <==> node in stack
  {
  }

  // ----- all agents

  /** An agent as it was configured, or given a requirement. */
  datatype Materialized = Kept(entry: Json) | Given(entry: Json, requirement: Requirement)

  function AliasOf(entry: Json): string { match StringField(entry, "alias") case Some(alias) => alias case None => "" }

  /** An agent without a requirement of its own whose alias names another profile. */
  predicate StartsQualified(read: Readers, entry: Json)
  {
    DirectRequirement(read, entry).None? && ParseAlias(AliasOf(entry)).Qualified?
  }

  /** What becomes of one active agent. */
  ghost function AgentOutcome(env: Setting, name: string): Result<Materialized, AliasError>
    requires name in env.active
  {
    var entry, node := env.active[name], Node(None, name);
    if DirectRequirement(env.read, entry).Some? then Success(Kept(entry))
    else
      match ParseAlias(AliasOf(entry))
      case Unqualified => Success(Kept(entry))
      case BadAlias => Failure(AliasError(InvalidAlias(AliasOf(entry)), [node]))
      case Qualified(_, _) =>
        match Resolution(env, node, [])
        case Success(requirement) => Success(Given(entry, requirement))
        case Failure(e) => Failure(e)
  }

  /** The keys of the active agents, each once, in the order the configuration lists them. */
  ghost predicate Lists(order: seq<string>, agents: map<string, Json>)
  {
    (forall name :: name in order <==> name in agents) && forall i, j :: 0 <= i < j < |order| ==> order[i] != order[j]
  }

  /** `materializeQualifiedAgentAliases`; the first error, in the order of the agents, ends it. */
  method Materialize(env: Setting, order: seq<string>) returns (r: Result<map<string, Materialized>, AliasError>)
    requires Lists(order, env.active)
    ensures r.Success? ==> r.value.Keys == env.active.Keys
                           && forall name :: name in env.active ==> AgentOutcome(env, name) == Success(r.value[name])
    ensures r.Failure? ==>
              exists i :: 0 <= i < |order| && AgentOutcome(env, order[i]) == Failure(r.error)
                          && forall j :: 0 <= j < i ==> AgentOutcome(env, order[j]).Success?
  {
    hide DirectRequirement, ParseAlias, Resolution, View;
    var resolver := new Resolver(env);
    var agents := map name | name in env.active :: Kept(env.active[name]);
    for i := 0 to |order|
      invariant fresh(resolver) && resolver.Valid() && resolver.env == env && resolver.stack == []
      invariant agents.Keys == env.active.Keys
      invariant forall k :: i <= k < |order| ==> agents[order[k]] == Kept(env.active[order[k]])
      invariant forall k :: 0 <= k < i ==> AgentOutcome(env, order[k]) == Success(agents[order[k]])
    {
      var name := order[i];
      var entry := env.active[name];
      var direct := NormalizeDirectRequirement(env.read, entry);
      if direct.Some? { continue; }
      NoColon();
      if AliasOf(entry) == "" { continue; }
      var parsed := ParseAlias(AliasOf(entry));
      if parsed.BadAlias? { return Failure(AliasError(InvalidAlias(AliasOf(entry)), [Node(None, name)])); }
      if parsed.Unqualified? { continue; }
      var requirement := resolver.Resolve(None, name);
      if requirement.Failure? { return Failure(requirement.error); }
      agents := agents[name := Given(entry, requirement.value)];
    }
    forall name | name in env.active ensures AgentOutcome(env, name) == Success(agents[name]) {
      assert name in order;
    }
    return Success(agents);
  }

  lemma NoColon()
    ensures ParseAlias("") == Unqualified
  {
  }

  /** An agent is given a requirement exactly when its own alias names another profile and its chain leads to an
      agent that requires something; it is kept as it is exactly when it requires something itself or has no
      qualified alias. */
  lemma MaterializedIff(env: Setting, name: string, requirement: Requirement)
    requires name in env.active
    ensures AgentOutcome(env, name) == Success(Given(env.active[name], requirement))
            <==> StartsQualified(env.read, env.active[name])
                 && exists path ::
                      path != [] && path[0] == Node(None, name) && EndsChain(env, path, Success(requirement))
    ensures AgentOutcome(env, name) == Success(Kept(env.active[name]))
            <==> DirectRequirement(env.read, env.active[name]).Some? || ':' !in AliasOf(env.active[name])
  {
    hide DirectRequirement, Resolution, EndsChain;
    ResolvesIff(env, Node(None, name), requirement);
    QualifiedIff(AliasOf(env.active[name]), "", "");
  }

  /** A profile entry with only an alias leaves the agent without a requirement of its own, whatever the base gives
      it, so that its alias is followed. */
  lemma AliasOnlyIsFollowed(read: Readers, base: map<string, Json>, over: map<string, Json>, name: string)
    requires name in base && name in over && base[name].Obj? && over[name].Obj? && !IsUnsafeKey(name)
    requires AliasOnly(over[name].fields)
    ensures var agents := MergeProfileOverlay(Some(Obj(base)), Some(Obj(over)), true).value;
            && agents.Obj? && name in agents.fields
            && DirectRequirement(read, agents.fields[name]).None?
            && AliasOf(agents.fields[name]) == AliasOf(over[name])
  {
    hide Sanitize, Merged, MergeProfileOverlay, DirectRequirement, Safe;
    forall k | k in {"model", "models", "fallbackModels", "requirement", "alias"} && !IsUnsafeKey(k)
      ensures OverlaidAt(base, over, name, k)
    {
      OverlaidAgentField(base, over, name, k);
      if k == "alias" { AliasWins(Sanitized(At(base[name].fields, k)), over[name].fields[k]); }
    }
    assert OverlaidAt(base, over, name, "alias") && OverlaidAt(base, over, name, "model")
        && OverlaidAt(base, over, name, "models")
           && OverlaidAt(base, over, name, "fallbackModels") && OverlaidAt(base, over, name, "requirement");
    var agents := MergeProfileOverlay(Some(Obj(base)), Some(Obj(over)), true).value;
    var entry := agents.fields[name].fields;
    AliasWins(None, over[name].fields["alias"]);
    assert At(entry, "alias") == Some(over[name].fields["alias"]);
    SelectsLikewise(over[name].fields, entry);
    DirectIffSelects(read, entry);
  }

  ghost predicate OverlaidAt(base: map<string, Json>, over: map<string, Json>, name: string, k: string)
    requires name in over && over[name].Obj?
  {
    var agents := MergeProfileOverlay(Some(Obj(base)), Some(Obj(over)), true);
    && agents.Some? && agents.value.Obj? && name in agents.value.fields && agents.value.fields[name].Obj?
    && At(agents.value.fields[name].fields, k) == Sanitized(At(over[name].fields, k))
  }

  lemma AliasWins(base: Option<Json>, alias: Json)
    requires alias.Str?
    ensures Merged(base, Sanitized(Some(alias)), Some("alias"), true) == Sanitized(Some(alias)) == Some(alias)
  {
  }

  lemma SelectsLikewise(overEntry: map<string, Json>, entry: map<string, Json>)
    requires forall k :: k in {"model", "models", "fallbackModels", "requirement"} ==>
               At(entry, k) == Sanitized(At(overEntry, k))
    ensures HasDirectSelector(entry) == HasDirectSelector(overEntry)
  {
    hide Safe;
    forall k | k in {"model", "models", "fallbackModels", "requirement"}
      ensures k in entry <==> k in overEntry
      ensures k in entry ==> entry[k] == Sanitize(overEntry[k])
    {
      assert At(entry, k) == Sanitized(At(overEntry, k));
    }
  }
}
