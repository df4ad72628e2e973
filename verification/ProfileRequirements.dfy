/** What the agents of a profile require, and where their aliases lead, said of the members of their entries. */
module ProfileRequirements {
  import opened Wrappers
  import opened Text
  import opened JsonValues
  import opened Sorting
  import opened ConfigMerge
  import opened ProfileAliases

  type Fields = map<string, Json>

  /** The member is this list, or no list at all. */
  ghost predicate HasList(entry: Fields, name: string, items: seq<Json>)
  {
    if name in entry && entry[name].Arr? then items == entry[name].items else items == []
  }

  /** The member is this string, or no string at all. */
  ghost predicate HasText(entry: Fields, name: string, text: Option<string>)
  {
    if name in entry && entry[name].Str? then text == Some(entry[name].s) else text == None
  }

  /** The member is this object, or no object at all. */
  ghost predicate HasObject(entry: Fields, name: string, fields: Option<Fields>)
  {
    if name in entry && entry[name].Obj? then fields == Some(entry[name].fields) else fields == None
  }

  /** Element by element, what reading the items gives. */
  ghost predicate AreRead(chain: seq<Json>, items: seq<Json>, read: Json -> Json)
  {
    |chain| == |items| && forall i :: 0 <= i < |items| ==> chain[i] == read(items[i])
  }

  /** A reasoning of "none" is "off"; without a given one it is the other. */
  ghost predicate HasReasoning(r: Requirement, given: Option<string>, other: Option<string>)
  {
    r.reasoning == if given == Some("none") then Some("off") else if given.Some? then given else other
  }

  ghost predicate HasVariant(r: Requirement, given: Option<string>, other: Option<string>)
  {
    r.variant == if given.Some? then given else other
  }

  /** The other members of a requirement. */
  ghost predicate HasRest(r: Requirement, fields: Fields)
  {
    && (forall k :: k in r.rest <==> k in fields && k != "fallbackChain" && k != "reasoning" && k != "variant")
    && (forall k :: k in r.rest ==> r.rest[k] == fields[k])
  }

  /** What a requirement that is written out as one says. */
  ghost predicate SaysRequirement(read: Readers, fields: Fields, r: Requirement, chain: seq<Json>,
                                  reasoning: Option<string>, variant: Option<string>)
  {
    && HasList(fields, "fallbackChain", chain) && HasText(fields, "reasoning", reasoning)
    && HasText(fields, "variant", variant)
    && AreRead(r.fallbackChain, chain, read.fallback) && HasReasoning(r, reasoning, None)
    && HasVariant(r, variant, None) && HasRest(r, fields)
  }

  ghost predicate IsWritten(read: Readers, fields: Fields, r: Requirement)
  {
    exists chain, reasoning, variant :: SaysRequirement(read, fields, r, chain, reasoning, variant)
  }

  /** The requirement of an entry that lists models: those, and its own reasoning and variant over those of a
      requirement that is written out beside them. */
  ghost predicate OfModels(read: Readers, models: seq<Json>, written: Option<Fields>, reasoning: Option<string>,
                           variant: Option<string>, r: Requirement)
  {
    && AreRead(r.fallbackChain, models, read.canonical)
    && if written.None? then HasReasoning(r, reasoning, None) && HasVariant(r, variant, None) && r.rest == map[]
       else exists base: Requirement ::
              && IsWritten(read, written.value, base) && r.rest == base.rest
              && HasReasoning(r, reasoning, base.reasoning) && HasVariant(r, variant, base.variant)
  }

  /** The requirement of an entry with one model: that first, then its fallbacks. */
  ghost predicate OfModel(read: Readers, model: string, fallbacks: seq<Json>, reasoning: Option<string>,
                          variant: Option<string>, r: Requirement)
  {
    && |r.fallbackChain| == 1 + |fallbacks| && r.fallbackChain[0] == read.modelString(model, variant, reasoning)
    && (forall i :: 0 <= i < |fallbacks| ==> r.fallbackChain[1 + i] == read.fallback(fallbacks[i]))
    && HasReasoning(r, reasoning, None) && HasVariant(r, variant, None) && r.rest == map[]
  }

  ghost predicate OfFallbacks(read: Readers, fallbacks: seq<Json>, reasoning: Option<string>, variant: Option<string>,
                              r: Requirement)
  {
    && AreRead(r.fallbackChain, fallbacks, read.fallback)
    && HasReasoning(r, reasoning, None) && HasVariant(r, variant, None) && r.rest == map[]
  }

  lemma MapReads(items: seq<Json>, f: Json -> Json)
    ensures AreRead(Map(items, f), items, f)
  {
  }

  lemma IsList(entry: Fields, name: string, items: seq<Json>)
    requires HasList(entry, name, items)
    ensures ListField(Obj(entry), name) == items
  {
  }

  lemma IsText(entry: Fields, name: string, text: Option<string>)
    requires HasText(entry, name, text)
    ensures StringField(Obj(entry), name) == text
  {
  }

  lemma WrittenIs(read: Readers, fields: Fields)
    ensures IsWritten(read, fields, NormalRequirement(read, Obj(fields)))
  {
    hide Map, AreRead;
    var r := NormalRequirement(read, Obj(fields));
    var chain := ListField(Obj(fields), "fallbackChain");
    var reasoning, variant := StringField(Obj(fields), "reasoning"), StringField(Obj(fields), "variant");
    MapReads(chain, read.fallback);
    assert SaysRequirement(read, fields, r, chain, reasoning, variant);
  }

  /** What an entry requires: with models, exactly those; else what is written out; else its model and fallbacks, the
      model first; and nothing only if it has none of these. */
  lemma RequirementIff(read: Readers, entry: Fields, models: seq<Json>, written: Option<Fields>, model: Option<string>,
                       fallbacks: seq<Json>, reasoning: Option<string>, variant: Option<string>)
    requires HasList(entry, "models", models) && HasObject(entry, "requirement", written)
    requires HasText(entry, "model", model) && HasList(entry, "fallbackModels", fallbacks)
    requires HasText(entry, "reasoning", reasoning) && HasText(entry, "variant", variant)
    ensures var r := DirectRequirement(read, Obj(entry));
            var named := model.Some? && model.value != "";
            && (r.None? <==> models == [] && written.None? && !named && fallbacks == [])
            && (models != [] ==> OfModels(read, models, written, reasoning, variant, r.value))
            && (models == [] && written.Some? ==> IsWritten(read, written.value, r.value))
            && (models == [] && written.None? && named ==>
                  OfModel(read, model.value, fallbacks, reasoning, variant, r.value))
            && (models == [] && written.None? && !named && fallbacks != [] ==>
                  OfFallbacks(read, fallbacks, reasoning, variant, r.value))
  {
    hide AreRead, IsWritten, HasText, HasList, HasReasoning, HasVariant, DirectRequirement;
    IsList(entry, "models", models);
    IsList(entry, "fallbackModels", fallbacks);
    IsText(entry, "model", model);
    IsText(entry, "reasoning", reasoning);
    IsText(entry, "variant", variant);
    RequirementCases(read, entry, models, written, model, fallbacks, reasoning, variant);
    if models != [] {
      ModelsCase(read, models, written, reasoning, variant);
    } else if written.Some? {
      WrittenIs(read, written.value);
    } else if model.Some? && model.value != "" {
      ChainCase(read, [read.modelString(model.value, variant, reasoning)], fallbacks, reasoning, variant);
    } else {
      ChainCase(read, [], fallbacks, reasoning, variant);
    }
  }

  function Intense(chain: seq<Json>, reasoning: Option<string>, variant: Option<string>): Requirement {
    Requirement(chain, NormalReasoning(reasoning), variant, map[])
  }

  lemma RequirementCases(read: Readers, entry: Fields, models: seq<Json>, written: Option<Fields>,
                         model: Option<string>, fallbacks: seq<Json>, reasoning: Option<string>,
                         variant: Option<string>)
    requires ListField(Obj(entry), "models") == models && HasObject(entry, "requirement", written)
    requires StringField(Obj(entry), "model") == model && ListField(Obj(entry), "fallbackModels") == fallbacks
    requires StringField(Obj(entry), "reasoning") == reasoning && StringField(Obj(entry), "variant") == variant
    ensures DirectRequirement(read, Obj(entry))
            == if models != [] then Some(Overlaid(Map(models, read.canonical), read, written, reasoning, variant))
               else if written.Some? then Some(NormalRequirement(read, Obj(written.value)))
               else
                 var head := if model.Some? && model.value != ""
                             then [read.modelString(model.value, variant, reasoning)] else [];
                 var chain := head + Map(fallbacks, read.fallback);
                 if chain == [] then None else Some(Intense(chain, reasoning, variant))
  {
    hide Map, NormalRequirement, StringField, ListField;
  }

  function Overlaid(chain: seq<Json>, read: Readers, written: Option<Fields>, reasoning: Option<string>,
                    variant: Option<string>): Requirement
  {
    if written.None? then Intense(chain, reasoning, variant)
    else
      var base := NormalRequirement(read, Obj(written.value));
      base.(fallbackChain := chain,
            reasoning := if reasoning.Some? then NormalReasoning(reasoning) else base.reasoning,
            variant := if variant.Some? then variant else base.variant)
  }

  lemma ModelsCase(read: Readers, models: seq<Json>, written: Option<Fields>, reasoning: Option<string>,
                   variant: Option<string>)
    ensures OfModels(read, models, written, reasoning, variant,
                     Overlaid(Map(models, read.canonical), read, written, reasoning, variant))
  {
    hide Map, AreRead, IsWritten, NormalRequirement;
    MapReads(models, read.canonical);
    if written.Some? { WrittenIs(read, written.value); }
  }

  lemma ChainCase(read: Readers, head: seq<Json>, fallbacks: seq<Json>, reasoning: Option<string>,
                  variant: Option<string>)
    ensures var r := Intense(head + Map(fallbacks, read.fallback), reasoning, variant);
            && (head == [] ==> OfFallbacks(read, fallbacks, reasoning, variant, r) && |r.fallbackChain| == |fallbacks|)
            && forall model :: head == [read.modelString(model, variant, reasoning)] ==>
                 OfModel(read, model, fallbacks, reasoning, variant, r)
  {
    hide Map, AreRead, HasReasoning, HasVariant;
    MapReads(fallbacks, read.fallback);
    var items := Map(fallbacks, read.fallback);
    AreReadElements(items, fallbacks, read.fallback);
    IntenseHas(head + items, reasoning, variant);
    if head == [] { assert head + items == items; }
    if |head| == 1 {
      assert (head + items)[0] == head[0];
      forall i | 0 <= i < |fallbacks| ensures (head + items)[1 + i] == read.fallback(fallbacks[i]) {
        assert (head + items)[1 + i] == items[i];
      }
    }
  }

  lemma IntenseHas(chain: seq<Json>, reasoning: Option<string>, variant: Option<string>)
    ensures var r := Intense(chain, reasoning, variant);
            && HasReasoning(r, reasoning, None) && HasVariant(r, variant, None)
            && r.rest == map[] && r.fallbackChain == chain
  {
  }

  lemma AreReadElements(chain: seq<Json>, items: seq<Json>, f: Json -> Json)
    requires AreRead(chain, items, f)
    ensures |chain| == |items| && forall i :: 0 <= i < |items| ==> chain[i] == f(items[i])
  {
  }

  /** What is no object requires nothing. */
  lemma NothingElseRequires(read: Readers, v: Json)
    requires !v.Obj?
    ensures DirectRequirement(read, v).None?
  {
  }

  // ----- names and aliases

  /** The names profiles may have. */
  ghost predicate IsName(s: string) { s != "" && forall i :: 0 <= i < |s| ==> IsNameChar(s[i]) }

  ghost predicate IsNameChar(c: char)
  {
    || c in "ABCDEFGHIJKLMNOPQRSTUVWXYZ" || c in "abcdefghijklmnopqrstuvwxyz" || c in "0123456789" || c in "_-"
  }

  lemma UpperCase(c: char)
    ensures c in "ABCDEFGHIJKLMNOPQRSTUVWXYZ" <==> 'A' <= c <= 'Z'
  {
    var letters := "ABCDEFGHIJKLMNOPQRSTUVWXYZ";
    if 'A' <= c <= 'Z' { assert letters[c as int - 'A' as int] == c; }
  }

  lemma LowerCase(c: char)
    ensures c in "abcdefghijklmnopqrstuvwxyz" <==> 'a' <= c <= 'z'
  {
    var letters := "abcdefghijklmnopqrstuvwxyz";
    if 'a' <= c <= 'z' { assert letters[c as int - 'a' as int] == c; }
  }

  lemma Digits(c: char)
    ensures c in "0123456789" <==> IsDigit(c)
    ensures c in "_-" <==> c == '_' || c == '-'
  {
    var digits := "0123456789";
    if IsDigit(c) { assert digits[c as int - '0' as int] == c; }
    assert "_-"[0] == '_' && "_-"[1] == '-';
  }

  lemma NameCharIff(c: char)
    ensures IsProfileChar(c) <==> IsNameChar(c)
  {
    UpperCase(c);
    LowerCase(c);
    Digits(c);
  }

  lemma NameIff(s: string)
    ensures IsProfileName(s) <==> IsName(s)
  {
    hide IsProfileChar, IsNameChar;
    forall i | 0 <= i < |s| ensures IsProfileChar(s[i]) <==> IsNameChar(s[i]) { NameCharIff(s[i]); }
  }

  /** An alias that names an agent of another profile. */
  ghost predicate Points(alias: string, profile: string, agent: string)
  {
    alias == profile + ":" + agent && IsName(profile) && agent != ""
  }

  lemma PointsIff(alias: string, profile: string, agent: string)
    ensures ParseAlias(alias) == Qualified(profile, agent) <==> Points(alias, profile, agent)
    ensures ParseAlias(alias) == Unqualified <==> ':' !in alias
    ensures ParseAlias(alias) == BadAlias <==> ':' in alias && forall p, a :: !Points(alias, p, a)
  {
    hide ParseAlias, IsName;
    QualifiedIff(alias, profile, agent);
    NameIff(profile);
    forall p, a ensures ParseAlias(alias) == Qualified(p, a) <==> Points(alias, p, a) {
      QualifiedIff(alias, p, a);
      NameIff(p);
    }
    match ParseAlias(alias)
    case Unqualified =>
    case BadAlias =>
    case Qualified(p, a) => assert Points(alias, p, a);
  }

  // ----- one step along an alias

  /** The agents of a profile: what its own agents make of the base ones. */
  ghost predicate AgentsAre(env: Setting, profile: Option<string>, agents: Fields)
  {
    match profile
    case None => agents == env.active
    case Some(name) =>
      && name in env.profiles && !env.profiles[name].invalid
      && env.profiles[name].value.Some? && env.profiles[name].value.value.Obj?
      && var fields := env.profiles[name].value.value.fields;
         var own := if "agents" in fields && fields["agents"].Obj? then Some(fields["agents"]) else None;
         MergeProfileOverlay(Some(Obj(env.baseAgents)), own, true) == Some(Obj(agents))
  }

  /** Every profile has agents, unless it is missing, invalid or no object. */
  lemma AgentsIff(env: Setting, profile: Option<string>, agents: Fields)
    ensures AgentsIn(env, profile) == Success(agents) <==> AgentsAre(env, profile, agents)
    ensures profile.Some? ==>
              var name := profile.value;
              && (AgentsIn(env, profile) == Failure(ProfileMissing(name)) <==> name !in env.profiles)
              && (AgentsIn(env, profile) == Failure(ProfileInvalid(name))
                  <==> name in env.profiles && env.profiles[name].invalid)
              && (AgentsIn(env, profile) == Failure(ProfileEmpty(name))
                  <==> && name in env.profiles && !env.profiles[name].invalid
                       && forall fields: Fields :: env.profiles[name].value != Some(Obj(fields)))
  {
    hide MergeProfileOverlay;
    if profile.Some? && View(env, profile.value).Success? {
      var value := env.profiles[profile.value].value.value;
      ViewIsObject(env.baseAgents, OverlayOf(value));
    }
    if profile.Some? && profile.value in env.profiles && env.profiles[profile.value].value.Some? {
      var value := env.profiles[profile.value].value.value;
      assert value.Obj? ==> value == Obj(value.fields);
    }
  }

  /** No such agent, or one that JavaScript takes for false. */
  ghost predicate IsMissing(agents: Fields, name: string)
  {
    name !in agents || agents[name] in [Null, Bool(false), Int(0), Str("")]
  }

  /** The entry has this alias. */
  ghost predicate HasAlias(entry: Json, alias: string)
  {
    entry.Obj? && "alias" in entry.fields && entry.fields["alias"] == Str(alias) && alias != ""
  }

  ghost predicate GoesTo(profile: Option<string>, alias: string, next: Node)
  {
    if ':' in alias then next.profile.Some? && Points(alias, next.profile.value, next.agent)
    else next == Node(profile, alias)
  }

  lemma AliasIff(entry: Json, alias: string)
    ensures HasAlias(entry, alias) <==> StringField(entry, "alias") == Some(alias) && alias != ""
    ensures (forall a :: !HasAlias(entry, a)) ==> StringField(entry, "alias") in {None, Some("")}
  {
    if StringField(entry, "alias").Some? && StringField(entry, "alias") != Some("") {
      assert HasAlias(entry, StringField(entry, "alias").value);
    }
  }

  /** What becomes of an agent, by its entry: an entry that requires something itself ends the chain; else its alias
      leads on; else it is an error which tells what is missing. */
  lemma StepIff(env: Setting, node: Node, agents: Fields)
    requires AgentsAre(env, node.profile, agents)
    ensures Step(env, node) == Fails(NotFound) <==> IsMissing(agents, node.agent)
    ensures !IsMissing(agents, node.agent) ==>
              var entry, direct := agents[node.agent], DirectRequirement(env.read, agents[node.agent]);
              && (direct.Some? ==> Step(env, node) == Requires(direct.value))
              && (direct.None? ==>
                    && (Step(env, node) == Fails(NoRequirement) <==> forall alias :: !HasAlias(entry, alias))
                    && (forall alias :: HasAlias(entry, alias) ==> AliasStep(env, node, entry, alias)))
  {
    hide DirectRequirement, ParseAlias, StringField, AgentsAre, HasAlias, Points;
    AgentsIff(env, node.profile, agents);
    MissingIff(agents, node.agent);
    if !IsMissing(agents, node.agent) && DirectRequirement(env.read, agents[node.agent]).None? {
      var entry := agents[node.agent];
      AliasIff(entry, "");
      forall alias | HasAlias(entry, alias) ensures AliasStep(env, node, entry, alias) {
        AliasIff(entry, alias);
        AliasLeads(env, node, entry, alias);
      }
      if StringField(entry, "alias").Some? { AliasIff(entry, StringField(entry, "alias").value); }
    }
  }

  /** The alias leads exactly there, or is invalid if it leads nowhere. */
  ghost predicate AliasStep(env: Setting, node: Node, entry: Json, alias: string)
  {
    && (forall next :: GoesTo(node.profile, alias, next) <==> Step(env, node) == Leads(next, entry))
    && (Step(env, node) == Fails(InvalidAlias(alias)) <==> forall next :: !GoesTo(node.profile, alias, next))
  }

  lemma MissingIff(agents: Fields, name: string)
    ensures IsMissing(agents, name) <==> name !in agents || !Truthy(agents[name])
  {
  }

  lemma AliasLeads(env: Setting, node: Node, entry: Json, alias: string)
    requires AgentsIn(env, node.profile).Success? && node.agent in AgentsIn(env, node.profile).value
    requires entry == AgentsIn(env, node.profile).value[node.agent] && Truthy(entry)
    requires DirectRequirement(env.read, entry).None? && StringField(entry, "alias") == Some(alias) && alias != ""
    ensures AliasStep(env, node, entry, alias)
  {
    hide DirectRequirement, ParseAlias, StringField, Points, AgentsIn, Truthy;
    PointsIff(alias, "", "");
    forall next ensures GoesTo(node.profile, alias, next) <==> Step(env, node) == Leads(next, entry) {
      if next.profile.Some? { PointsIff(alias, next.profile.value, next.agent); }
    }
    if Step(env, node).Leads? { assert GoesTo(node.profile, alias, Step(env, node).next); }
    if Step(env, node) == Fails(InvalidAlias(alias)) {
      forall next ensures !GoesTo(node.profile, alias, next) {
        assert Step(env, node) != Leads(next, entry);
      }
    }
  }

  // ----- what comes of the chain

  /** An entry on the way changes the intensity only: its reasoning takes the place of both, else its variant does. */
  lemma IntensityIs(r: Requirement, entry: Fields, reasoning: Option<string>, variant: Option<string>)
    requires HasText(entry, "reasoning", reasoning) && HasText(entry, "variant", variant)
    ensures var after := ApplyIntensity(r, Obj(entry));
            && after.fallbackChain == r.fallbackChain && after.rest == r.rest
            && (if reasoning.Some? then HasReasoning(after, reasoning, None) && after.variant == None
                else if variant.Some? then after.variant == variant && after.reasoning == None
                else after == r)
    ensures SetsIntensity(Obj(entry)) <==> reasoning.Some? || variant.Some?
  {
  }

  /** An agent that is given a requirement has the models of the agent its chain ends at. */
  lemma GivenModels(env: Setting, name: string, requirement: Requirement)
    requires name in env.active
    requires AgentOutcome(env, name) == Success(Given(env.active[name], requirement))
    ensures exists path :: path != [] && path[0] == Node(None, name) && TakesModels(env, path, requirement)
  {
    hide DirectRequirement, Resolution, Step, Intensified, IsChain;
    MaterializedIff(env, name, requirement);
    var path :| path != [] && path[0] == Node(None, name) && EndsChain(env, path, Success(requirement));
    IntensityKeepsRest(env, path, Step(env, Last(path)).requirement);
    assert TakesModels(env, path, requirement);
  }

  ghost predicate TakesModels(env: Setting, path: seq<Node>, requirement: Requirement)
  {
    && IsChain(env, path) && Step(env, Last(path)).Requires?
    && requirement.fallbackChain == Step(env, Last(path)).requirement.fallbackChain
    && requirement.rest == Step(env, Last(path)).requirement.rest
  }
}
