/** Compute routing: from a task's requirements to a provider. */
module Router {
  import opened Common
  import Ordering

  datatype Provider = Provider(name: string, compute: string)

  /** An absent task type, and an empty one, matches every task. */
  datatype Trigger = Trigger(taskType: Option<string>, minGb: Option<real>, maxGb: Option<real>)

  datatype Action = Action(target: Option<string>, model: string, fallback: Option<string>)

  datatype Rule = Rule(id: string, priority: int, trigger: Trigger, action: Action)

  /** `target` has its default applied. */
  datatype Tier = Tier(name: string, target: string, models: seq<string>, fallback: Option<string>)

  datatype Config = Config(
    defaultCompute: string, providers: seq<Provider>, lemonadeBackends: set<string>,
    tiers: seq<Tier>, rules: seq<Rule>, warmPriority: seq<string>)

  /** The decision; `Default` may come without a provider. */
  datatype Confidence = ByModel | ByTier | ByRule | ByDefault

  datatype Decision = Decision(provider: Option<Provider>, model: string, tier: string, fallback: seq<Provider>,
                               confidence: Confidence)

  function Value(c: Confidence): real {
    match c
    case ByModel => 0.95
    case ByTier => 0.8
    case ByRule => 0.7
    case ByDefault => 0.3
  }

  const LEMONADE := "lemonade"

  // ----- providers

  predicate Serves(c: Config, p: Provider, compute: string) {
    p.compute == compute || (p.name == LEMONADE && compute in c.lemonadeBackends)
  }

  predicate HasDirect(ps: seq<Provider>, compute: string) {
    exists i :: 0 <= i < |ps| && ps[i].compute == compute
  }

  function Named(ps: seq<Provider>, name: string): Option<Provider> {
    if ps == [] then None else if ps[0].name == name then Some(ps[0]) else Named(ps[1..], name)
  }

  function Direct(ps: seq<Provider>, compute: string): Option<Provider> {
    if ps == [] then None else if ps[0].compute == compute then Some(ps[0]) else Direct(ps[1..], compute)
  }

  function ProviderFor(c: Config, compute: string): Option<Provider> {
    if Direct(c.providers, compute).Some? then Direct(c.providers, compute)
    else if compute in c.lemonadeBackends then Named(c.providers, LEMONADE)
    else None
  }

  ghost predicate FirstDirect(ps: seq<Provider>, compute: string, i: nat) {
    i < |ps| && ps[i].compute == compute && forall j :: 0 <= j < i ==> ps[j].compute != compute
  }

  lemma {:induction false} DirectIsFirst(ps: seq<Provider>, compute: string)
    ensures Direct(ps, compute).Some? <==> HasDirect(ps, compute)
    ensures Direct(ps, compute).Some? ==>
      exists i: nat :: FirstDirect(ps, compute, i) && Direct(ps, compute) == Some(ps[i])
  {
    if ps != [] {
      DirectIsFirst(ps[1..], compute);
      if ps[0].compute == compute {
        assert FirstDirect(ps, compute, 0);
      } else if HasDirect(ps[1..], compute) {
        var i: nat :| FirstDirect(ps[1..], compute, i) && Direct(ps[1..], compute) == Some(ps[1..][i]);
        assert forall j :: 0 < j < i + 1 ==> ps[j] == ps[1..][j - 1];
        assert FirstDirect(ps, compute, i + 1);
      }
      if i :| 0 < i < |ps| && ps[i].compute == compute {
        assert ps[1..][i - 1] == ps[i];
      }
    }
  }

  lemma {:induction false} NamedIsFirst(ps: seq<Provider>, name: string)
    ensures Named(ps, name).Some? <==> exists i :: 0 <= i < |ps| && ps[i].name == name
    ensures Named(ps, name).Some? ==>
      exists i :: 0 <= i < |ps| && Named(ps, name) == Some(ps[i]) && ps[i].name == name &&
                  forall j :: 0 <= j < i ==> ps[j].name != name
  {
    if ps != [] {
      NamedIsFirst(ps[1..], name);
      if i :| 0 < i < |ps| && ps[i].name == name {
        assert ps[1..][i - 1] == ps[i];
      }
      if j :| 0 <= j < |ps[1..]| && ps[1..][j].name == name {
        assert ps[j + 1] == ps[1..][j];
      }
    }
  }

  /** There is a provider for a compute target exactly when one serves it; the first direct one is preferred. */
  lemma ProviderIff(c: Config, compute: string)
    ensures ProviderFor(c, compute).Some? <==> exists i :: 0 <= i < |c.providers| && Serves(c, c.providers[i], compute)
    ensures ProviderFor(c, compute).Some? ==>
      var p := ProviderFor(c, compute).value;
      p in c.providers && Serves(c, p, compute) &&
      (HasDirect(c.providers, compute) ==> exists i: nat :: FirstDirect(c.providers, compute, i) && p == c.providers[i])
  {
    DirectIsFirst(c.providers, compute);
    NamedIsFirst(c.providers, LEMONADE);
    if HasDirect(c.providers, compute) {
      var i :| 0 <= i < |c.providers| && c.providers[i].compute == compute;
      assert Serves(c, c.providers[i], compute);
    } else if compute in c.lemonadeBackends && Named(c.providers, LEMONADE).Some? {
      var i :| 0 <= i < |c.providers| && c.providers[i].name == LEMONADE;
      assert Serves(c, c.providers[i], compute);
    }
  }

  // ----- rules

  predicate Matches(t: Trigger, taskType: string, sizeGb: Option<real>) {
    && (t.taskType.Some? && t.taskType.value != "" ==> t.taskType.value == taskType)
    && (sizeGb.Some? && t.minGb.Some? ==> t.minGb.value <= sizeGb.value)
    && (sizeGb.Some? && t.maxGb.Some? ==> sizeGb.value <= t.maxGb.value)
  }

  function TargetOf(c: Config, a: Action): string {
    if a.target.Some? then a.target.value else c.defaultCompute
  }

  predicate Eligible(c: Config, r: Rule, taskType: string, sizeGb: Option<real>) {
    Matches(r.trigger, taskType, sizeGb) && ProviderFor(c, TargetOf(c, r.action)).Some?
  }

  function FallbackOf(c: Config, fallback: Option<string>): seq<Provider> {
    if fallback.Some? && fallback.value != "" && ProviderFor(c, fallback.value).Some?
    then [ProviderFor(c, fallback.value).value] else []
  }

  function RuleDecision(c: Config, r: Rule): Decision {
    Decision(ProviderFor(c, TargetOf(c, r.action)), r.action.model, "rule:" + r.id,
             FallbackOf(c, r.action.fallback), ByRule)
  }

  function Priorities(rules: seq<Rule>): (ks: seq<Ordering.Key>)
    ensures |ks| == |rules|
  {
    seq(|rules|, i requires 0 <= i < |rules| => Ordering.Key(-rules[i].priority, 0))
  }

  /** `sorted(rules, key=priority, reverse=True)`, which keeps the order of ties. */
  function ByPriority(rules: seq<Rule>): (r: seq<Rule>)
    ensures |r| == |rules|
  {
    var order := Ordering.SortPositions(Priorities(rules));
    seq(|rules|, k requires 0 <= k < |rules| => rules[order[k]])
  }

  /** Rule `i` of the configuration is eligible, and every other eligible one has a lower priority, or
      the same and a later place. */
  ghost predicate Best(c: Config, taskType: string, sizeGb: Option<real>, i: nat) {
    && i < |c.rules| && Eligible(c, c.rules[i], taskType, sizeGb)
    && forall j :: 0 <= j < |c.rules| && j != i && Eligible(c, c.rules[j], taskType, sizeGb) ==>
         c.rules[j].priority < c.rules[i].priority || (c.rules[j].priority == c.rules[i].priority && i < j)
  }

  lemma FirstEligibleIsBest(c: Config, taskType: string, sizeGb: Option<real>, k: nat)
    requires k < |c.rules| && Eligible(c, ByPriority(c.rules)[k], taskType, sizeGb)
    requires forall l :: 0 <= l < k ==> !Eligible(c, ByPriority(c.rules)[l], taskType, sizeGb)
    ensures Best(c, taskType, sizeGb, Ordering.SortPositions(Priorities(c.rules))[k])
  {
    var keys := Priorities(c.rules);
    var order := Ordering.SortPositions(keys);
    forall j: nat | j < |c.rules| && j != order[k] && Eligible(c, c.rules[j], taskType, sizeGb)
      ensures Ordering.Before(keys, order[k], j)
    {
      forall l | 0 <= l < k ensures order[l] != j {
        assert ByPriority(c.rules)[l] == c.rules[order[l]];
      }
      Ordering.FirstInOrder(keys, k, j);
    }
  }

  lemma NoneEligible(c: Config, taskType: string, sizeGb: Option<real>)
    requires forall l :: 0 <= l < |c.rules| ==> !Eligible(c, ByPriority(c.rules)[l], taskType, sizeGb)
    ensures forall i :: 0 <= i < |c.rules| ==> !Eligible(c, c.rules[i], taskType, sizeGb)
  {
    var keys := Priorities(c.rules);
    var order := Ordering.SortPositions(keys);
    Ordering.SortHolds(keys);
    forall i: nat | i < |c.rules| ensures !Eligible(c, c.rules[i], taskType, sizeGb) {
      assert i in order;
      var k :| 0 <= k < |order| && order[k] == i;
      assert ByPriority(c.rules)[k] == c.rules[i];
    }
  }

  // ----- tiers

  /** The first tier, in order, that lists the model and has a provider. */
  predicate Offers(c: Config, t: Tier, model: string) {
    model in t.models && ProviderFor(c, t.target).Some?
  }

  function TierDecision(c: Config, t: Tier): Decision {
    Decision(ProviderFor(c, t.target), if t.models != [] then t.models[0] else "", t.name,
             FallbackOf(c, t.fallback), ByTier)
  }

  function ModelDecision(c: Config, t: Tier, model: string): Decision {
    Decision(ProviderFor(c, t.target), model, t.name, FallbackOf(c, t.fallback), ByModel)
  }

  function DefaultDecision(c: Config): Decision {
    Decision(if Named(c.providers, c.defaultCompute).Some? then Named(c.providers, c.defaultCompute)
             else Named(c.providers, LEMONADE),
             "", "default", [], ByDefault)
  }

  ghost predicate FirstOffer(c: Config, model: string, i: nat) {
    i < |c.tiers| && Offers(c, c.tiers[i], model) && forall j :: 0 <= j < i ==> !Offers(c, c.tiers[j], model)
  }

  ghost predicate AnyOffer(c: Config, model: string) {
    exists i :: 0 <= i < |c.tiers| && Offers(c, c.tiers[i], model)
  }

  ghost predicate AnyEligible(c: Config, taskType: string, sizeGb: Option<real>) {
    exists i :: 0 <= i < |c.rules| && Eligible(c, c.rules[i], taskType, sizeGb)
  }

  ghost predicate HasTier(c: Config, name: string) {
    exists i :: 0 <= i < |c.tiers| && c.tiers[i].name == name
  }

  datatype Query = Query(taskType: string, sizeGb: Option<real>, tier: string, model: string)

  /** What a decision must be: the preferred model's first tier, the named tier, the best rule, or the
      default, each only when nothing before it applies. */
  ghost predicate Right(c: Config, q: Query, d: Decision) {
    if q.model != "" && AnyOffer(c, q.model) then
      exists i: nat :: FirstOffer(c, q.model, i) && d == ModelDecision(c, c.tiers[i], q.model)
    else if q.tier != "" && HasTier(c, q.tier) then
      exists i :: 0 <= i < |c.tiers| && c.tiers[i].name == q.tier && d == TierDecision(c, c.tiers[i])
    else if AnyEligible(c, q.taskType, q.sizeGb) then
      exists i: nat :: Best(c, q.taskType, q.sizeGb, i) && d == RuleDecision(c, c.rules[i])
    else d == DefaultDecision(c)
  }

  class ComputeRouter {
    const config: Config
    var rules: seq<Rule>
    var npuHotModel: Option<string>

    ghost predicate Valid()
      reads this
    {
      rules == ByPriority(config.rules)
    }

    constructor (config: Config)
      ensures Valid() && this.config == config
      ensures npuHotModel == if config.warmPriority != [] then Some(config.warmPriority[0]) else None
    {
      this.config := config;
      rules := ByPriority(config.rules);
      npuHotModel := if config.warmPriority != [] then Some(config.warmPriority[0]) else None;
    }

    method SetNpuHotModel(model: string)
      requires Valid()
      modifies this
      ensures Valid() && npuHotModel == Some(model)
    {
      npuHotModel := Some(model);
    }

    method FindProviderByCompute(compute: string) returns (p: Option<Provider>)
      ensures p == ProviderFor(config, compute)
      ensures p.Some? <==> exists i :: 0 <= i < |config.providers| && Serves(config, config.providers[i], compute)
    {
      ProviderIff(config, compute);
      for i := 0 to |config.providers|
        invariant Direct(config.providers[i..], compute) == Direct(config.providers, compute)
      {
        assert config.providers[i..][1..] == config.providers[i + 1..];
        if config.providers[i].compute == compute {
          return Some(config.providers[i]);
        }
      }
      return if compute in config.lemonadeBackends then Named(config.providers, LEMONADE) else None;
    }

    method ResolvePreferredModel(model: string) returns (d: Option<Decision>)
      ensures d.Some? <==> AnyOffer(config, model)
      ensures d.Some? ==>
        exists i: nat :: FirstOffer(config, model, i) && d.value == ModelDecision(config, config.tiers[i], model)
    {
      for i := 0 to |config.tiers|
        invariant forall j :: 0 <= j < i ==> !Offers(config, config.tiers[j], model)
      {
        if model in config.tiers[i].models {
          var provider := FindProviderByCompute(config.tiers[i].target);
          if provider.Some? {
            assert FirstOffer(config, model, i);
            return Some(ModelDecision(config, config.tiers[i], model));
          }
        }
      }
      return None;
    }

    /** The best eligible rule of the configuration, or nothing when none is eligible. */
    method ResolveRules(taskType: string, sizeGb: Option<real>) returns (d: Option<Decision>)
      requires Valid()
      ensures d.Some? <==> AnyEligible(config, taskType, sizeGb)
      ensures d.Some? ==>
        exists i: nat :: Best(config, taskType, sizeGb, i) && d.value == RuleDecision(config, config.rules[i])
    {
      for k := 0 to |rules|
        invariant forall l :: 0 <= l < k ==> !Eligible(config, rules[l], taskType, sizeGb)
      {
        var t := rules[k].trigger;
        if t.taskType.Some? && t.taskType.value != "" && t.taskType.value != taskType {
          continue;
        }
        if sizeGb.Some? {
          if t.minGb.Some? && sizeGb.value < t.minGb.value {
            continue;
          }
          if t.maxGb.Some? && sizeGb.value > t.maxGb.value {
            continue;
          }
        }
        var provider := FindProviderByCompute(TargetOf(config, rules[k].action));
        if provider.Some? {
          FirstEligibleIsBest(config, taskType, sizeGb, k);
          return Some(RuleDecision(config, rules[k]));
        }
      }
      NoneEligible(config, taskType, sizeGb);
      return None;
    }

    method ResolveTier(name: string) returns (d: Option<Decision>)
      ensures d.Some? <==> HasTier(config, name)
      ensures d.Some? ==>
        exists i :: 0 <= i < |config.tiers| && config.tiers[i].name == name &&
                    d.value == TierDecision(config, config.tiers[i])
    {
      for i := 0 to |config.tiers|
        invariant forall j :: 0 <= j < i ==> config.tiers[j].name != name
      {
        if config.tiers[i].name == name {
          return Some(TierDecision(config, config.tiers[i]));
        }
      }
      return None;
    }

    method ResolveQuery(q: Query) returns (d: Decision)
      requires Valid()
      ensures Right(config, q, d)
    {
      if q.model != "" {
        var preferred := ResolvePreferredModel(q.model);
        if preferred.Some? {
          return preferred.value;
        }
      }
      if q.tier != "" {
        var tier := ResolveTier(q.tier);
        if tier.Some? {
          return tier.value;
        }
      }
      var rule := ResolveRules(q.taskType, q.sizeGb);
      if rule.Some? {
        return rule.value;
      }
      return DefaultDecision(config);
    }
  }

  ghost predicate UniqueTiers(c: Config) {
    forall i, j :: 0 <= i < j < |c.tiers| ==> c.tiers[i].name != c.tiers[j].name
  }

  /** The configuration and the query fix the decision. */
  lemma DecisionIsUnique(c: Config, q: Query, a: Decision, b: Decision)
    requires UniqueTiers(c) && Right(c, q, a) && Right(c, q, b)
    ensures a == b
  {
    if q.model != "" && AnyOffer(c, q.model) {
    } else if q.tier != "" && HasTier(c, q.tier) {
    } else if AnyEligible(c, q.taskType, q.sizeGb) {
      var i: nat :| Best(c, q.taskType, q.sizeGb, i) && a == RuleDecision(c, c.rules[i]);
      var j: nat :| Best(c, q.taskType, q.sizeGb, j) && b == RuleDecision(c, c.rules[j]);
    }
  }

  ghost predicate Served(c: Config, compute: string) {
    exists i :: 0 <= i < |c.providers| && Serves(c, c.providers[i], compute)
  }

  /** No provider has the default compute's name, and none is the lemonade server. */
  ghost predicate NoDefault(c: Config) {
    forall i :: 0 <= i < |c.providers| ==> c.providers[i].name != c.defaultCompute && c.providers[i].name != LEMONADE
  }

  /** A decision comes without a provider exactly when the query names a tier that nobody serves, or
      falls through to a default that nobody has the name of; its model and rule decisions always have one. */
  lemma ProviderMissingIff(c: Config, q: Query, d: Decision)
    requires UniqueTiers(c) && Right(c, q, d)
    ensures d.provider.None? <==>
      !(q.model != "" && AnyOffer(c, q.model)) &&
      if q.tier != "" && HasTier(c, q.tier)
      then forall i :: 0 <= i < |c.tiers| && c.tiers[i].name == q.tier ==> !Served(c, c.tiers[i].target)
      else !AnyEligible(c, q.taskType, q.sizeGb) && NoDefault(c)
    ensures d.provider.None? ==> d.confidence == ByTier || d.confidence == ByDefault
    ensures Value(d.confidence) == 0.95 || Value(d.confidence) == 0.7 ==> d.provider.Some?
  {
    if q.model != "" && AnyOffer(c, q.model) {
      var i: nat :| FirstOffer(c, q.model, i) && d == ModelDecision(c, c.tiers[i], q.model);
    } else if q.tier != "" && HasTier(c, q.tier) {
      var i :| 0 <= i < |c.tiers| && c.tiers[i].name == q.tier && d == TierDecision(c, c.tiers[i]);
      ProviderIff(c, c.tiers[i].target);
    } else if AnyEligible(c, q.taskType, q.sizeGb) {
      var i: nat :| Best(c, q.taskType, q.sizeGb, i) && d == RuleDecision(c, c.rules[i]);
    } else {
      NamedIsFirst(c.providers, c.defaultCompute);
      NamedIsFirst(c.providers, LEMONADE);
    }
  }

  // ----- what the decisions say, in the terms of the configuration

  /** `p` is a provider of that compute: the first one that has it, or else the lemonade server, if it
      lists the compute among its backends. */
  ghost predicate Provides(c: Config, p: Provider, compute: string) {
    p in c.providers &&
    if HasDirect(c.providers, compute)
    then exists i: nat :: FirstDirect(c.providers, compute, i) && p == c.providers[i]
    else p.name == "lemonade" && compute in c.lemonadeBackends
  }

  lemma ProviderMeans(c: Config, compute: string)
    ensures ProviderFor(c, compute).Some? <==> exists p :: Provides(c, p, compute)
    ensures ProviderFor(c, compute).Some? ==> Provides(c, ProviderFor(c, compute).value, compute)
  {
    DirectIsFirst(c.providers, compute);
    NamedIsFirst(c.providers, "lemonade");
    if ProviderFor(c, compute).Some? {
      assert Provides(c, ProviderFor(c, compute).value, compute);
    }
    if p :| Provides(c, p, compute) {
      var i :| 0 <= i < |c.providers| && c.providers[i] == p;
    }
  }

  /** The rule asks for no task type, or for this one, its bounds hold the size, if there is one, and
      somebody provides the compute that it names, or the default one if it names none. */
  ghost predicate Applies(c: Config, r: Rule, taskType: string, sizeGb: Option<real>) {
    && (r.trigger.taskType in {None, Some(""), Some(taskType)})
    && (sizeGb.Some? && r.trigger.minGb.Some? ==> sizeGb.value >= r.trigger.minGb.value)
    && (sizeGb.Some? && r.trigger.maxGb.Some? ==> sizeGb.value <= r.trigger.maxGb.value)
    && (r.action.target.Some? ==> exists p :: Provides(c, p, r.action.target.value))
    && (r.action.target.None? ==> exists p :: Provides(c, p, c.defaultCompute))
  }

  lemma EligibleApplies(c: Config, r: Rule, taskType: string, sizeGb: Option<real>)
    ensures Eligible(c, r, taskType, sizeGb) <==> Applies(c, r, taskType, sizeGb)
  {
    ProviderMeans(c, c.defaultCompute);
    if r.action.target.Some? {
      ProviderMeans(c, r.action.target.value);
    }
  }

  /** The decision for a rule that applies goes to a provider of the rule's own target, or of the default
      compute if it names none, with the rule's model and name. */
  lemma RuleDecisionServes(c: Config, r: Rule, taskType: string, sizeGb: Option<real>)
    requires Applies(c, r, taskType, sizeGb)
    ensures var d := RuleDecision(c, r);
      && d.provider.Some? && d.model == r.action.model && d.tier == "rule:" + r.id && Value(d.confidence) == 0.7
      && (r.action.target.Some? ==> Provides(c, d.provider.value, r.action.target.value))
      && (r.action.target.None? ==> Provides(c, d.provider.value, c.defaultCompute))
      && IsFallback(c, d.fallback, r.action.fallback)
  {
    EligibleApplies(c, r, taskType, sizeGb);
    ProviderMeans(c, c.defaultCompute);
    if r.action.target.Some? {
      ProviderMeans(c, r.action.target.value);
    }
    FallbackHolds(c, r.action.fallback);
  }

  /** A provider of the compute named as fallback, if one is named and somebody provides it. */
  ghost predicate IsFallback(c: Config, chain: seq<Provider>, named: Option<string>) {
    if named.Some? && named.value != "" && exists p :: Provides(c, p, named.value)
    then |chain| == 1 && Provides(c, chain[0], named.value)
    else chain == []
  }

  lemma FallbackHolds(c: Config, named: Option<string>)
    ensures IsFallback(c, FallbackOf(c, named), named)
  {
    if named.Some? {
      ProviderMeans(c, named.value);
    }
  }

  /** Rule `i` applies, and any other that does has a lower priority, or the same and a later place. */
  ghost predicate Wins(c: Config, taskType: string, sizeGb: Option<real>, i: nat) {
    i < |c.rules| && Applies(c, c.rules[i], taskType, sizeGb) &&
    forall j :: 0 <= j < |c.rules| && j != i && Applies(c, c.rules[j], taskType, sizeGb) ==>
      c.rules[j].priority < c.rules[i].priority || (c.rules[j].priority == c.rules[i].priority && i < j)
  }

  lemma BestWins(c: Config, taskType: string, sizeGb: Option<real>, i: nat)
    ensures Best(c, taskType, sizeGb, i) <==> Wins(c, taskType, sizeGb, i)
  {
    forall j | 0 <= j < |c.rules|
      ensures Eligible(c, c.rules[j], taskType, sizeGb) <==> Applies(c, c.rules[j], taskType, sizeGb)
    {
      EligibleApplies(c, c.rules[j], taskType, sizeGb);
    }
  }

  /** Without a preferred model that some tier can serve and without a named tier, the rule that wins
      decides, and its provider has the compute the rule names; the default decides only if no rule applies. */
  lemma RuleRouting(c: Config, q: Query, d: Decision)
    requires Right(c, q, d) && d.confidence in {ByRule, ByDefault}
    ensures d.confidence == ByRule ==>
      exists i: nat :: Wins(c, q.taskType, q.sizeGb, i) && d.tier == "rule:" + c.rules[i].id &&
                       d.model == c.rules[i].action.model && d.provider.Some? &&
                       Provides(c, d.provider.value, if c.rules[i].action.target.Some?
                                                     then c.rules[i].action.target.value else c.defaultCompute)
    ensures d.confidence == ByDefault ==>
      forall i :: 0 <= i < |c.rules| ==> !Applies(c, c.rules[i], q.taskType, q.sizeGb)
  {
    if d.confidence == ByRule {
      var i: nat :| Best(c, q.taskType, q.sizeGb, i) && d == RuleDecision(c, c.rules[i]);
      BestWins(c, q.taskType, q.sizeGb, i);
      RuleDecisionServes(c, c.rules[i], q.taskType, q.sizeGb);
    } else {
      forall i | 0 <= i < |c.rules| ensures !Applies(c, c.rules[i], q.taskType, q.sizeGb) {
        EligibleApplies(c, c.rules[i], q.taskType, q.sizeGb);
        assert AnyEligible(c, q.taskType, q.sizeGb) <== Eligible(c, c.rules[i], q.taskType, q.sizeGb);
      }
    }
  }

  /** Tier `t` lists the model, and somebody provides its target. */
  ghost predicate Lists(c: Config, t: Tier, model: string) {
    model in t.models && exists p :: Provides(c, p, t.target)
  }

  /** Which of the four ways decides: a preferred model that some tier can serve, a named tier, a rule
      that applies, in this order, or else the default. */
  lemma WhoDecides(c: Config, q: Query, d: Decision)
    requires Right(c, q, d)
    ensures var byModel := q.model != "" && exists i :: 0 <= i < |c.tiers| && Lists(c, c.tiers[i], q.model);
      var byTier := q.tier != "" && exists i :: 0 <= i < |c.tiers| && c.tiers[i].name == q.tier;
      var byRule := exists i :: 0 <= i < |c.rules| && Applies(c, c.rules[i], q.taskType, q.sizeGb);
      d.confidence == if byModel then ByModel else if byTier then ByTier else if byRule then ByRule else ByDefault
  {
    forall i | 0 <= i < |c.tiers| ensures Offers(c, c.tiers[i], q.model) <==> Lists(c, c.tiers[i], q.model) {
      ProviderMeans(c, c.tiers[i].target);
    }
    forall i | 0 <= i < |c.rules|
      ensures Eligible(c, c.rules[i], q.taskType, q.sizeGb) <==> Applies(c, c.rules[i], q.taskType, q.sizeGb)
    {
      EligibleApplies(c, c.rules[i], q.taskType, q.sizeGb);
    }
  }

  /** The decision uses the name, the fallback and the target of tier `t`. */
  ghost predicate OfTier(c: Config, d: Decision, t: Tier) {
    && d.tier == t.name && IsFallback(c, d.fallback, t.fallback)
    && (d.provider.Some? <==> exists p :: Provides(c, p, t.target))
    && (d.provider.Some? ==> Provides(c, d.provider.value, t.target))
  }

  lemma TierMeans(c: Config, t: Tier, d: Decision)
    requires d.provider == ProviderFor(c, t.target) && d.tier == t.name && d.fallback == FallbackOf(c, t.fallback)
    ensures OfTier(c, d, t)
  {
    ProviderMeans(c, t.target);
    FallbackHolds(c, t.fallback);
  }

  /** A preferred model goes, under its own name, to the first tier that can serve it. */
  lemma ModelRouting(c: Config, q: Query, d: Decision)
    requires Right(c, q, d) && d.confidence == ByModel
    ensures d.model == q.model
    ensures exists i :: 0 <= i < |c.tiers| && OfTier(c, d, c.tiers[i]) && Lists(c, c.tiers[i], q.model) &&
                        forall j :: 0 <= j < i ==> !Lists(c, c.tiers[j], q.model)
  {
    var i: nat :| FirstOffer(c, q.model, i) && d == ModelDecision(c, c.tiers[i], q.model);
    TierMeans(c, c.tiers[i], d);
    forall j | 0 <= j <= i ensures Offers(c, c.tiers[j], q.model) <==> Lists(c, c.tiers[j], q.model) {
      ProviderMeans(c, c.tiers[j].target);
    }
  }

  /** A named tier goes to its target, with its first model. */
  lemma TierRouting(c: Config, q: Query, d: Decision)
    requires Right(c, q, d) && d.confidence == ByTier
    ensures exists i :: 0 <= i < |c.tiers| && OfTier(c, d, c.tiers[i]) && c.tiers[i].name == q.tier &&
                        d.model == if c.tiers[i].models == [] then "" else c.tiers[i].models[0]
  {
    var i :| 0 <= i < |c.tiers| && c.tiers[i].name == q.tier && d == TierDecision(c, c.tiers[i]);
    TierMeans(c, c.tiers[i], d);
  }

  /** The default is the provider that has the default compute's name, else the one named lemonade. */
  lemma DefaultRouting(c: Config, q: Query, d: Decision)
    requires Right(c, q, d) && d.confidence == ByDefault
    ensures d.model == "" && d.tier == "default" && d.fallback == []
    ensures d.provider.Some? ==> d.provider.value in c.providers
    ensures d.provider.Some? ==>
      if exists i :: 0 <= i < |c.providers| && c.providers[i].name == c.defaultCompute
      then d.provider.value.name == c.defaultCompute else d.provider.value.name == "lemonade"
  {
    NamedIsFirst(c.providers, c.defaultCompute);
    NamedIsFirst(c.providers, "lemonade");
  }

  lemma ConfidenceValues()
    ensures Value(ByModel) == 0.95 && Value(ByTier) == 0.8 && Value(ByRule) == 0.7 && Value(ByDefault) == 0.3
  {
  }
}
