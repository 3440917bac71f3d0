/** The chart's ClusterRole, generated from the controller's rules: what is granted with the toggle on is what the
    source grants, and with the toggle off exactly the deprecated resources are gone. */
module HelmRbac {
  import opened Wrappers

  datatype Rule = Rule(
    apiGroups: seq<string>,
    resources: seq<string>,
    verbs: seq<string>,
    resourceNames: seq<string>,
    nonResourceURLs: seq<string>)

  const DEPRECATED_RESOURCES := {
    ("apps", "deployments"), ("apps", "statefulsets"), ("leaderworkerset.x-k8s.io", "leaderworkersets")}

  /** The resource without its subresource. */
  function Base(resource: string): string {
    if resource == "" || resource[0] == '/' then "" else [resource[0]] + Base(resource[1..])
  }

  /** The part of the resource before its first slash. */
  lemma {:induction false} BaseMeaning(resource: string)
    ensures Base(resource) <= resource && '/' !in Base(resource)
    ensures Base(resource) == resource || resource[|Base(resource)|] == '/'
  {
    if resource != "" && resource[0] != '/' { BaseMeaning(resource[1..]); }
  }

  predicate Gated(group: string, resource: string) {
    (group, Base(resource)) in DEPRECATED_RESOURCES
  }

  /** The resource itself, or one of its subresources. */
  predicate Under(resource: string, base: string) {
    resource == base || base + "/" <= resource
  }

  predicate DeprecatedResource(group: string, resource: string) {
    || (group == "apps" && (Under(resource, "deployments") || Under(resource, "statefulsets")))
    || (group == "leaderworkerset.x-k8s.io" && Under(resource, "leaderworkersets"))
  }

  lemma UnderExactly(resource: string, base: string)
    requires '/' !in base && base != ""
    ensures Under(resource, base) <==> Base(resource) == base
  {
    BaseMeaning(resource);
    if base + "/" <= resource {
      assert resource[|base|] == '/';
      assert forall i :: 0 <= i < |base| ==> resource[i] == base[i];
      assert |Base(resource)| == |base|;
    }
  }

  /** Gated are the three deprecated workload resources with their subresources, and nothing else. */
  lemma GatedExactly(group: string, resource: string)
    ensures Gated(group, resource) <==> DeprecatedResource(group, resource)
  {
    UnderExactly(resource, "deployments");
    UnderExactly(resource, "statefulsets");
    UnderExactly(resource, "leaderworkersets");
  }

  /** Some group of the rule makes the resource a deprecated one. */
  predicate GatedIn(groups: seq<string>, resource: string) {
    exists g :: g in groups && Gated(g, resource)
  }

  predicate GroupsAgree(groups: seq<string>, resource: string) {
    forall g, h :: g in groups && h in groups ==> Gated(g, resource) == Gated(h, resource)
  }

  /** Groups agree exactly when the resource is a deprecated one in all of them or in none. */
  lemma GroupsAgreeExactly(groups: seq<string>, resource: string)
    ensures GroupsAgree(groups, resource) <==>
            || (forall g :: g in groups ==> DeprecatedResource(g, resource))
            || (forall g :: g in groups ==> !DeprecatedResource(g, resource))
  {
    forall g: string
      ensures Gated(g, resource) <==> DeprecatedResource(g, resource)
    {
      GatedExactly(g, resource);
    }
  }

  method IsDeprecated(apiGroups: seq<string>, resource: string) returns (r: Result<bool, ()>)
    ensures r.Success? <==> GroupsAgree(apiGroups, resource)
    ensures r.Success? ==> r.value == GatedIn(apiGroups, resource)
  {
    var gated, plain: seq<string> := [], [];
    for i := 0 to |apiGroups|
      invariant forall g :: g in gated <==> g in apiGroups[..i] && Gated(g, resource)
      invariant forall g :: g in plain <==> g in apiGroups[..i] && !Gated(g, resource)
    {
      if (apiGroups[i], Base(resource)) in DEPRECATED_RESOURCES {
        gated := gated + [apiGroups[i]];
      } else {
        plain := plain + [apiGroups[i]];
      }
    }
    if |gated| > 0 { assert gated[0] in gated; }
    if |plain| > 0 { assert plain[0] in plain; }
    if |gated| > 0 && |plain| > 0 { return Failure(()); }
    return Success(|gated| > 0);
  }

  // ----- Splitting rules into blocks

  datatype Block = Block(rule: Rule, deprecated: bool)

  /** The resources that are gated, or those that are not, in their order. */
  function Select(groups: seq<string>, resources: seq<string>, gated: bool): seq<string> {
    if resources == [] then []
    else
      var init, last := Select(groups, resources[..|resources| - 1], gated), resources[|resources| - 1];
      if GatedIn(groups, last) == gated then init + [last] else init
  }

  function Part(rule: Rule, gated: bool): seq<Block> {
    var resources := Select(rule.apiGroups, rule.resources, gated);
    if resources == [] then [] else [Block(rule.(resources := resources), gated)]
  }

  function BlocksOf(rule: Rule): seq<Block> {
    Part(rule, false) + Part(rule, true)
  }

  function Blocks(rules: seq<Rule>): seq<Block> {
    if rules == [] then [] else Blocks(rules[..|rules| - 1]) + BlocksOf(rules[|rules| - 1])
  }

  predicate Splittable(rule: Rule) {
    rule.resources != [] && forall resource :: resource in rule.resources ==> GroupsAgree(rule.apiGroups, resource)
  }

  /** The failure names the first rule that cannot be split. */
  method SplitRules(rules: seq<Rule>) returns (r: Result<seq<Block>, nat>)
    ensures r.Success? <==> forall i :: 0 <= i < |rules| ==> Splittable(rules[i])
    ensures r.Success? ==> r.value == Blocks(rules)
    ensures r.Failure? ==> r.error < |rules| && !Splittable(rules[r.error])
    ensures r.Failure? ==> forall i :: 0 <= i < r.error ==> Splittable(rules[i])
  {
    var blocks: seq<Block> := [];
    for i := 0 to |rules|
      invariant blocks == Blocks(rules[..i])
      invariant forall j :: 0 <= j < i ==> Splittable(rules[j])
    {
      assert rules[..i + 1][..i] == rules[..i];
      var parts := SplitRule(rules[i]);
      if parts.Failure? { return Failure(i); }
      blocks := blocks + parts.value;
    }
    assert rules[..|rules|] == rules;
    return Success(blocks);
  }

  method SplitRule(rule: Rule) returns (r: Result<seq<Block>, ()>)
    ensures r.Success? <==> Splittable(rule)
    ensures r.Success? ==> r.value == BlocksOf(rule)
  {
    var parts := SplitResources(rule);
    if parts.Failure? { return Failure(()); }
    var (kept, gated) := parts.value;
    SelectPartitions(rule.apiGroups, rule.resources);
    if |kept| == 0 && |gated| == 0 { return Failure(()); }
    var blocks: seq<Block> := [];
    if |kept| > 0 { blocks := blocks + [Block(rule.(resources := kept), false)]; }
    if |gated| > 0 { blocks := blocks + [Block(rule.(resources := gated), true)]; }
    return Success(blocks);
  }

  method SplitResources(rule: Rule) returns (r: Result<(seq<string>, seq<string>), ()>)
    ensures r.Success? <==> forall resource :: resource in rule.resources ==> GroupsAgree(rule.apiGroups, resource)
    ensures r.Success? ==> r.value.0 == Select(rule.apiGroups, rule.resources, false)
    ensures r.Success? ==> r.value.1 == Select(rule.apiGroups, rule.resources, true)
  {
    var kept, gated: seq<string> := [], [];
    var resources := rule.resources;
    for i := 0 to |resources|
      invariant kept == Select(rule.apiGroups, resources[..i], false)
      invariant gated == Select(rule.apiGroups, resources[..i], true)
      invariant forall resource :: resource in resources[..i] ==> GroupsAgree(rule.apiGroups, resource)
    {
      assert resources[..i + 1][..i] == resources[..i];
      var gate := IsDeprecated(rule.apiGroups, resources[i]);
      if gate.Failure? { return Failure(()); }
      if gate.value { gated := gated + [resources[i]]; } else { kept := kept + [resources[i]]; }
    }
    assert resources[..|resources|] == resources;
    return Success((kept, gated));
  }

  /** No resource is lost or doubled by the split. */
  lemma {:induction false} SelectPartitions(groups: seq<string>, resources: seq<string>)
    ensures multiset(Select(groups, resources, false)) + multiset(Select(groups, resources, true)) ==
            multiset(resources)
    ensures |Select(groups, resources, false)| + |Select(groups, resources, true)| == |resources|
    decreases |resources|
  {
    if resources != [] {
      SelectPartitions(groups, resources[..|resources| - 1]);
      assert resources == resources[..|resources| - 1] + [resources[|resources| - 1]];
    }
  }

  /** The resources that are selected keep their order: what is selected of a list is selected part by part. */
  lemma {:induction false} SelectInOrder(groups: seq<string>, a: seq<string>, b: seq<string>, gated: bool)
    ensures Select(groups, a + b, gated) == Select(groups, a, gated) + Select(groups, b, gated)
    ensures |a| == 1 ==> Select(groups, a, gated) == if GatedIn(groups, a[0]) == gated then a else []
    decreases |b|
  {
    if b == [] {
      assert a + b == a;
    } else {
      SelectInOrder(groups, a, b[..|b| - 1], gated);
      assert (a + b)[..|a + b| - 1] == a + b[..|b| - 1];
    }
    if |a| == 1 { assert Select(groups, a[..0], gated) == [] && a == [a[0]]; }
  }

  lemma {:induction false} SelectMembers(groups: seq<string>, resources: seq<string>, gated: bool, resource: string)
    ensures resource in Select(groups, resources, gated) <==>
            resource in resources && GatedIn(groups, resource) == gated
    decreases |resources|
  {
    if resources != [] {
      SelectMembers(groups, resources[..|resources| - 1], gated, resource);
      assert resources == resources[..|resources| - 1] + [resources[|resources| - 1]];
    }
  }

  // ----- The rendered document

  datatype Token = ConditionStart | ConditionEnd | Entry(rule: Rule)

  /** What a template engine has seen: whether it is inside a conditional, and the rules it has let through. */
  datatype Reading = Reading(open: bool, rules: seq<Rule>)

  /** One token read. A conditional inside another, or an end without a start, is an error. */
  function Step(r: Reading, t: Token, enabled: bool): Option<Reading> {
    match t
    case ConditionStart => if r.open then None else Some(r.(open := true))
    case ConditionEnd => if r.open then Some(r.(open := false)) else None
    case Entry(rule) => if r.open && !enabled then Some(r) else Some(r.(rules := r.rules + [rule]))
  }

  /** Reads tokens with the toggle on or off. */
  function Read(tokens: seq<Token>, enabled: bool): Option<Reading> {
    if tokens == [] then Some(Reading(false, []))
    else
      match Read(tokens[..|tokens| - 1], enabled)
      case None => None
      case Some(r) => Step(r, tokens[|tokens| - 1], enabled)
  }

  /** The rules of the ClusterRole the document stands for, if its conditionals are balanced. */
  function Evaluate(tokens: seq<Token>, enabled: bool): Option<seq<Rule>> {
    match Read(tokens, enabled)
    case Some(Reading(false, rules)) => Some(rules)
    case _ => None
  }

  /** A rule in a conditional is there exactly when the toggle is on, one outside always, and a conditional must be
      opened before it is closed, and closed. */
  lemma TemplateMeaning(rule: Rule, enabled: bool)
    ensures Evaluate([Entry(rule)], enabled) == Some([rule])
    ensures Evaluate([ConditionStart, Entry(rule), ConditionEnd], enabled) == Some(if enabled then [rule] else [])
    ensures Evaluate([ConditionStart, Entry(rule)], enabled) == None
    ensures Evaluate([ConditionEnd], enabled) == None
    ensures Evaluate([ConditionStart, ConditionStart, Entry(rule), ConditionEnd], enabled) == None
  {
    var none: seq<Token>, start := [], [ConditionStart];
    ReadAppend(none, Entry(rule), enabled);
    ReadAppend(none, ConditionStart, enabled);
    assert none + [Entry(rule)] == [Entry(rule)] && none + [ConditionStart] == start;
    assert Read([Entry(rule)], enabled).value.rules == [rule];
    assert [ConditionEnd][..0] == [] && [ConditionStart, ConditionStart][..1] == start;
    ReadAppend(start, Entry(rule), enabled);
    assert start + [Entry(rule)] == [ConditionStart, Entry(rule)];
    ReadAppend([ConditionStart, Entry(rule)], ConditionEnd, enabled);
    assert [ConditionStart, Entry(rule)] + [ConditionEnd] == [ConditionStart, Entry(rule), ConditionEnd];
    assert Read([ConditionStart, ConditionStart], enabled) == None;
    assert [ConditionStart, ConditionStart, Entry(rule)][..2] == [ConditionStart, ConditionStart];
    assert [ConditionStart, ConditionStart, Entry(rule), ConditionEnd][..3] ==
           [ConditionStart, ConditionStart, Entry(rule)];
    assert Read([ConditionStart, ConditionStart, Entry(rule)], enabled) == None;
  }

  function Visible(blocks: seq<Block>, enabled: bool): seq<Rule> {
    if blocks == [] then []
    else
      var init, last := Visible(blocks[..|blocks| - 1], enabled), blocks[|blocks| - 1];
      if last.deprecated && !enabled then init else init + [last.rule]
  }

  /** Each conditional holds a rule, and neighbouring ones are one. */
  predicate Coalesced(tokens: seq<Token>) {
    forall i :: 0 <= i < |tokens| - 1 ==> tokens[i].Entry? || tokens[i + 1].Entry?
  }

  predicate Rendered(tokens: seq<Token>, inCondition: bool, blocks: seq<Block>) {
    && Read(tokens, true) == Some(Reading(inCondition, Visible(blocks, true)))
    && Read(tokens, false) == Some(Reading(inCondition, Visible(blocks, false)))
    && Coalesced(tokens)
    && (tokens != [] ==> tokens[|tokens| - 1].Entry?)
    && (tokens == [] ==> !inCondition)
  }

  lemma ReadAppend(tokens: seq<Token>, t: Token, enabled: bool)
    requires Read(tokens, enabled).Some?
    ensures Read(tokens + [t], enabled) == Step(Read(tokens, enabled).value, t, enabled)
  {
    assert (tokens + [t])[..|tokens|] == tokens;
  }

  lemma VisibleAppend(blocks: seq<Block>, b: Block, enabled: bool)
    ensures Visible(blocks + [b], enabled) ==
            if b.deprecated && !enabled then Visible(blocks, enabled) else Visible(blocks, enabled) + [b.rule]
  {
    assert (blocks + [b])[..|blocks|] == blocks;
  }

  /** What to write before a rule so that it is inside a conditional exactly when it is deprecated. */
  predicate Switches(tokens: seq<Token>, inCondition: bool, deprecated: bool, switched: seq<Token>) {
    switched ==
      if deprecated == inCondition then tokens
      else if deprecated then tokens + [ConditionStart] else tokens + [ConditionEnd]
  }

  lemma ReadSwitched(tokens: seq<Token>, r: Reading, b: Block, switched: seq<Token>, enabled: bool)
    requires Read(tokens, enabled) == Some(r) && Switches(tokens, r.open, b.deprecated, switched)
    ensures Read(switched + [Entry(b.rule)], enabled) ==
            Some(Reading(b.deprecated, if b.deprecated && !enabled then r.rules else r.rules + [b.rule]))
  {
    if b.deprecated && !r.open { ReadAppend(tokens, ConditionStart, enabled); }
    if !b.deprecated && r.open { ReadAppend(tokens, ConditionEnd, enabled); }
    assert Read(switched, enabled) == Some(r.(open := b.deprecated));
    ReadAppend(switched, Entry(b.rule), enabled);
  }

  lemma CoalescedSwitched(tokens: seq<Token>, inCondition: bool, b: Block, switched: seq<Token>)
    requires Coalesced(tokens) && (tokens != [] ==> tokens[|tokens| - 1].Entry?)
    requires Switches(tokens, inCondition, b.deprecated, switched)
    ensures Coalesced(switched + [Entry(b.rule)])
  {
  }

  /** Opening or closing the conditional as the block needs, then writing the rule, renders one more block. */
  lemma RenderedStep(tokens: seq<Token>, inCondition: bool, blocks: seq<Block>, b: Block, switched: seq<Token>)
    requires Rendered(tokens, inCondition, blocks)
    requires Switches(tokens, inCondition, b.deprecated, switched)
    ensures Rendered(switched + [Entry(b.rule)], b.deprecated, blocks + [b])
  {
    ReadSwitched(tokens, Reading(inCondition, Visible(blocks, true)), b, switched, true);
    ReadSwitched(tokens, Reading(inCondition, Visible(blocks, false)), b, switched, false);
    VisibleAppend(blocks, b, true);
    VisibleAppend(blocks, b, false);
    CoalescedSwitched(tokens, inCondition, b, switched);
  }

  method Render(blocks: seq<Block>) returns (tokens: seq<Token>)
    ensures Evaluate(tokens, true) == Some(Visible(blocks, true))
    ensures Evaluate(tokens, false) == Some(Visible(blocks, false))
    ensures Coalesced(tokens)
  {
    tokens := [];
    var inCondition := false;
    for i := 0 to |blocks|
      invariant Rendered(tokens, inCondition, blocks[..i])
    {
      ghost var before, inside := tokens, inCondition;
      if blocks[i].deprecated && !inCondition {
        tokens := tokens + [ConditionStart];
        inCondition := true;
      }
      if !blocks[i].deprecated && inCondition {
        tokens := tokens + [ConditionEnd];
        inCondition := false;
      }
      RenderedStep(before, inside, blocks[..i], blocks[i], tokens);
      assert blocks[..i + 1] == blocks[..i] + [blocks[i]];
      tokens := tokens + [Entry(blocks[i].rule)];
    }
    assert blocks[..|blocks|] == blocks;
    if inCondition {
      ReadAppend(tokens, ConditionEnd, true);
      ReadAppend(tokens, ConditionEnd, false);
      tokens := tokens + [ConditionEnd];
    }
  }

  // ----- What is granted

  datatype Grant =
    | OnResource(group: string, resource: string, verb: string, names: seq<string>)
    | OnUrl(url: string, verb: string)

  predicate Grants(rule: Rule, g: Grant) {
    match g
    case OnResource(group, resource, verb, names) =>
      group in rule.apiGroups && resource in rule.resources && verb in rule.verbs && names == rule.resourceNames
    case OnUrl(url, verb) => url in rule.nonResourceURLs && verb in rule.verbs
  }

  predicate Granted(rules: seq<Rule>, g: Grant) {
    exists i :: 0 <= i < |rules| && Grants(rules[i], g)
  }

  /** What is left of a grant by `rule` when the toggle is off. */
  predicate GrantsWhenOff(rule: Rule, g: Grant) {
    && Grants(rule, g)
    && match g
       case OnResource(group, resource, _, _) => !Gated(group, resource)
       case OnUrl(_, _) => exists resource :: resource in rule.resources && !GatedIn(rule.apiGroups, resource)
  }

  predicate GrantedWhenOff(rules: seq<Rule>, g: Grant) {
    exists i :: 0 <= i < |rules| && GrantsWhenOff(rules[i], g)
  }

  predicate BlocksGrant(blocks: seq<Block>, enabled: bool, g: Grant) {
    exists i :: 0 <= i < |blocks| && (enabled || !blocks[i].deprecated) && Grants(blocks[i].rule, g)
  }

  lemma {:induction false} VisibleGrants(blocks: seq<Block>, enabled: bool, g: Grant)
    ensures Granted(Visible(blocks, enabled), g) <==> BlocksGrant(blocks, enabled, g)
    decreases |blocks|
  {
    if blocks != [] {
      var init, last := blocks[..|blocks| - 1], blocks[|blocks| - 1];
      VisibleGrants(init, enabled, g);
      AppendGrants(init, [last], enabled, g);
      assert blocks == init + [last];
      var rules := Visible(init, enabled);
      GrantedAppend(rules, last.rule, g);
    }
  }

  lemma GrantedAppend(rules: seq<Rule>, rule: Rule, g: Grant)
    ensures Granted(rules + [rule], g) <==> Granted(rules, g) || Grants(rule, g)
  {
    if Granted(rules, g) {
      var i :| 0 <= i < |rules| && Grants(rules[i], g);
      assert Grants((rules + [rule])[i], g);
    }
    if Grants(rule, g) { assert Grants((rules + [rule])[|rules|], g); }
  }

  lemma AppendGrants(a: seq<Block>, b: seq<Block>, enabled: bool, g: Grant)
    ensures BlocksGrant(a + b, enabled, g) <==> BlocksGrant(a, enabled, g) || BlocksGrant(b, enabled, g)
  {
    if BlocksGrant(a, enabled, g) {
      var i :| 0 <= i < |a| && (enabled || !a[i].deprecated) && Grants(a[i].rule, g);
      assert (a + b)[i] == a[i];
    }
    if BlocksGrant(b, enabled, g) {
      var i :| 0 <= i < |b| && (enabled || !b[i].deprecated) && Grants(b[i].rule, g);
      assert (a + b)[|a| + i] == b[i];
    }
  }

  /** The blocks of one rule grant what the rule grants, and its ungated block what is left when the toggle is off. */
  lemma RuleConserved(rule: Rule, g: Grant)
    requires Splittable(rule)
    ensures BlocksGrant(BlocksOf(rule), true, g) <==> Grants(rule, g)
    ensures BlocksGrant(BlocksOf(rule), false, g) <==> GrantsWhenOff(rule, g)
  {
    var kept, gated := Part(rule, false), Part(rule, true);
    PartGrants(rule, false, g);
    PartGrants(rule, true, g);
    AppendGrants(kept, gated, true, g);
    AppendGrants(kept, gated, false, g);
    assert !BlocksGrant(gated, false, g);
    match g {
      case OnResource(group, resource, _, _) =>
        if Grants(rule, g) { assert GatedIn(rule.apiGroups, resource) <==> Gated(group, resource); }
      case OnUrl(_, _) =>
        assert rule.resources[0] in rule.resources;
    }
  }

  predicate PartKeeps(rule: Rule, gated: bool, g: Grant) {
    match g
    case OnResource(_, resource, _, _) => GatedIn(rule.apiGroups, resource) == gated
    case OnUrl(_, _) => exists resource :: resource in rule.resources && GatedIn(rule.apiGroups, resource) == gated
  }

  lemma PartGrants(rule: Rule, gated: bool, g: Grant)
    ensures BlocksGrant(Part(rule, gated), true, g) <==> Grants(rule, g) && PartKeeps(rule, gated, g)
    ensures !gated ==> BlocksGrant(Part(rule, gated), false, g) == BlocksGrant(Part(rule, gated), true, g)
  {
    var resources := Select(rule.apiGroups, rule.resources, gated);
    forall resource: string
      ensures resource in resources <==> resource in rule.resources && GatedIn(rule.apiGroups, resource) == gated
    {
      SelectMembers(rule.apiGroups, rule.resources, gated, resource);
    }
    if resources != [] {
      assert resources[0] in resources;
      assert Part(rule, gated)[0] == Block(rule.(resources := resources), gated);
    }
  }

  lemma {:induction false} BlocksConserve(rules: seq<Rule>, g: Grant)
    requires forall i :: 0 <= i < |rules| ==> Splittable(rules[i])
    ensures BlocksGrant(Blocks(rules), true, g) <==> Granted(rules, g)
    ensures BlocksGrant(Blocks(rules), false, g) <==> GrantedWhenOff(rules, g)
    decreases |rules|
  {
    if rules != [] {
      var init, last := rules[..|rules| - 1], rules[|rules| - 1];
      BlocksConserve(init, g);
      RuleConserved(last, g);
      AppendGrants(Blocks(init), BlocksOf(last), true, g);
      AppendGrants(Blocks(init), BlocksOf(last), false, g);
      assert rules == init + [last];
      GrantedAppend(init, last, g);
      GrantedOffAppend(init, last, g);
    }
  }

  lemma GrantedOffAppend(rules: seq<Rule>, rule: Rule, g: Grant)
    ensures GrantedWhenOff(rules + [rule], g) <==> GrantedWhenOff(rules, g) || GrantsWhenOff(rule, g)
  {
    if GrantedWhenOff(rules, g) {
      var i :| 0 <= i < |rules| && GrantsWhenOff(rules[i], g);
      assert GrantsWhenOff((rules + [rule])[i], g);
    }
    if GrantsWhenOff(rule, g) { assert GrantsWhenOff((rules + [rule])[|rules|], g); }
  }

  /** On a resource, the toggle takes away exactly the deprecated ones. */
  lemma OffOnResource(rules: seq<Rule>, g: Grant)
    requires g.OnResource?
    ensures GrantedWhenOff(rules, g) <==> Granted(rules, g) && !DeprecatedResource(g.group, g.resource)
  {
    GatedExactly(g.group, g.resource);
    if Granted(rules, g) && !Gated(g.group, g.resource) {
      var i :| 0 <= i < |rules| && Grants(rules[i], g);
      assert GrantsWhenOff(rules[i], g);
    }
  }

  /** The chart is generated exactly when every rule can be split; it conserves the grants, and gates exactly the
      deprecated resources. */
  method Generate(rules: seq<Rule>) returns (r: Result<seq<Token>, Option<nat>>)
    ensures r.Success? <==> rules != [] && forall i :: 0 <= i < |rules| ==> Splittable(rules[i])
    ensures r.Success? ==> Coalesced(r.value) && Conserves(rules, r.value)
    ensures r.Success? ==> Evaluate(r.value, true) == Some(Visible(Blocks(rules), true))
  {
    if |rules| == 0 { return Failure(None); }
    var split := SplitRules(rules);
    if split.Failure? { return Failure(Some(split.error)); }
    var tokens := Render(split.value);
    forall g: Grant
      ensures GrantConserved(rules, Visible(split.value, true), Visible(split.value, false), g)
    {
      BlocksConserve(rules, g);
      VisibleGrants(split.value, true, g);
      VisibleGrants(split.value, false, g);
      if g.OnResource? { OffOnResource(rules, g); }
    }
    return Success(tokens);
  }

  predicate GrantConserved(rules: seq<Rule>, on: seq<Rule>, off: seq<Rule>, g: Grant) {
    && (Granted(on, g) <==> Granted(rules, g))
    && (Granted(off, g) <==> GrantedWhenOff(rules, g))
    && (g.OnResource? ==> (Granted(off, g) <==> Granted(rules, g) && !DeprecatedResource(g.group, g.resource)))
  }

  ghost predicate Conserves(rules: seq<Rule>, tokens: seq<Token>) {
    && Evaluate(tokens, true).Some?
    && Evaluate(tokens, false).Some?
    && forall g :: GrantConserved(rules, Evaluate(tokens, true).value, Evaluate(tokens, false).value, g)
  }

  // ----- The order of rules

  /** For each block, the rule it comes from. */
  function Origins(rules: seq<Rule>): seq<nat> {
    if rules == [] then []
    else
      var n := |rules| - 1;
      Origins(rules[..n]) + seq(|BlocksOf(rules[n])|, _ => n)
  }

  /** Every block is a rule with some of its resources, blocks never go back to an earlier rule, and no rule is
      left out. */
  ghost predicate InOrder(rules: seq<Rule>, blocks: seq<Block>, origins: seq<nat>) {
    && |origins| == |blocks|
    && (forall b :: 0 <= b < |blocks| ==> ComesFrom(rules, blocks[b], origins[b]))
    && (forall b, c :: 0 <= b < c < |origins| ==> origins[b] <= origins[c])
    && (forall i :: 0 <= i < |rules| ==> i in origins)
  }

  lemma InOrderAppend(rules: seq<Rule>, rule: Rule, blocks: seq<Block>, origins: seq<nat>, more: seq<Block>,
                      tail: seq<nat>)
    requires InOrder(rules, blocks, origins)
    requires more != [] && forall b :: 0 <= b < |more| ==> FromRule(rule, more[b])
    requires |tail| == |more| && forall k :: 0 <= k < |tail| ==> tail[k] == |rules|
    ensures InOrder(rules + [rule], blocks + more, origins + tail)
  {
    forall b | 0 <= b < |blocks + more|
      ensures ComesFrom(rules + [rule], (blocks + more)[b], (origins + tail)[b])
    {
      if b < |blocks| {
        assert ComesFrom(rules, blocks[b], origins[b]);
      } else {
        assert FromRule(rule, more[b - |blocks|]);
      }
    }
    forall b | 0 <= b < |origins|
      ensures origins[b] < |rules|
    {
      assert ComesFrom(rules, blocks[b], origins[b]);
    }
    assert (origins + tail)[|origins|] == |rules|;
  }

  /** With the toggle on, the document keeps the order of the rules. */
  lemma {:induction false} OrderKept(rules: seq<Rule>)
    requires forall i :: 0 <= i < |rules| ==> Splittable(rules[i])
    ensures InOrder(rules, Blocks(rules), Origins(rules))
    decreases |rules|
  {
    if rules != [] {
      var n := |rules| - 1;
      OrderKept(rules[..n]);
      PartsOfRule(rules[n]);
      InOrderAppend(rules[..n], rules[n], Blocks(rules[..n]), Origins(rules[..n]), BlocksOf(rules[n]),
                    seq(|BlocksOf(rules[n])|, _ => n));
      assert rules == rules[..n] + [rules[n]];
    }
  }

  predicate FromRule(rule: Rule, b: Block) {
    && b.rule == rule.(resources := b.rule.resources)
    && b.rule.resources == Select(rule.apiGroups, rule.resources, b.deprecated)
  }

  lemma PartsOfRule(rule: Rule)
    requires Splittable(rule)
    ensures BlocksOf(rule) != []
    ensures forall b :: 0 <= b < |BlocksOf(rule)| ==> FromRule(rule, BlocksOf(rule)[b])
  {
    SelectPartitions(rule.apiGroups, rule.resources);
  }

  /** Of a rule with both kinds of resources, the block outside the conditional comes first. */
  lemma PlainBlockFirst(rule: Rule, b: nat, c: nat)
    requires b < c < |BlocksOf(rule)|
    ensures !BlocksOf(rule)[b].deprecated && BlocksOf(rule)[c].deprecated
  {
  }

  predicate ComesFrom(rules: seq<Rule>, b: Block, i: nat) {
    && i < |rules|
    && FromRule(rules[i], b)
  }
}
