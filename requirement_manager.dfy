/**
 * Placeholder requirements (`RequirementManager`): each rule names a requirement type,
 * an input and an output; the first rule whose requirement rejects them supplies the
 * deny message. The requirement implementations, argument substitution and
 * PlaceholderAPI are the functions of an `Env`.
 */
module Requirements {
  import opened Wrappers
  import opened JavaStrings

  /** The three registered requirements. */
  datatype Kind = NumberRequirement | RegexRequirement | StringRequirement

  /** One configured rule (`RequirementData`); its deny message may be absent. */
  datatype Rule = Rule(identifier: String, input: String, output: String, deny: Option<String>)

  /**
   * The external behaviour: the iteration order of the registered requirements, their
   * `matchIdentifier` and `validate`, the placeholder's `replaceArguments`, and
   * PlaceholderAPI's `setPlaceholders` for a player. The source's `Set.of` holds each
   * of the three requirement kinds exactly once; every contract here holds for any
   * `order`, so the model deliberately does not require that.
   */
  datatype Env = Env(
    order: seq<Kind>,
    matchIdentifier: (Kind, String) -> bool,
    validate: (Kind, String, String, String) -> bool,
    replaceArguments: (seq<String>, String) -> String,
    setPlaceholders: (String, String) -> String)

  /** `getRequirementByType`: the first registered requirement (from `i` on) that accepts the type. */
  function RequirementFrom(env: Env, t: String, i: nat): (r: Option<Kind>)
    ensures r.Some? ==> r.value in env.order && env.matchIdentifier(r.value, t)
    ensures r.None? ==> forall j :: i <= j < |env.order| ==> !env.matchIdentifier(env.order[j], t)
    decreases |env.order| - i
  {
    if i >= |env.order| then None
    else if env.matchIdentifier(env.order[i], t) then Some(env.order[i])
    else RequirementFrom(env, t, i + 1)
  }

  function RequirementByType(env: Env, t: String): (r: Option<Kind>)
    ensures r.Some? ==> r.value in env.order && env.matchIdentifier(r.value, t)
    ensures r.None? <==> forall k :: k in env.order ==> !env.matchIdentifier(k, t)
  {
    RequirementFrom(env, t, 0)
  }

  /** `getParameters`: arguments substituted, then placeholders resolved only for a player. */
  function Parameters(env: Env, player: Option<String>, parameter: String, params: seq<String>): (r: String)
    ensures player.None? ==> r == env.replaceArguments(params, parameter)
    ensures player.Some? ==> r == env.setPlaceholders(player.value, env.replaceArguments(params, parameter))
  {
    var replaced := env.replaceArguments(params, parameter);
    if player.None? then replaced else env.setPlaceholders(player.value, replaced)
  }

  /** `processRequirementData`: the rule's deny message when its requirement rejects it, else nothing. */
  function RuleDeny(env: Env, rule: Rule, player: Option<String>, params: seq<String>): (r: Option<String>)
    ensures RequirementByType(env, rule.identifier).None? ==> r == None
    ensures r.Some? ==> r == rule.deny
    ensures RequirementByType(env, rule.identifier).Some? ==>
      (r == None <==>
        (rule.deny == None ||
         env.validate(RequirementByType(env, rule.identifier).value, rule.identifier,
                      Parameters(env, player, rule.input, params), Parameters(env, player, rule.output, params))))
  {
    match RequirementByType(env, rule.identifier)
    case None => None
    case Some(k) =>
      var input := Parameters(env, player, rule.input, params);
      var output := Parameters(env, player, rule.output, params);
      if env.validate(k, rule.identifier, input, output) then None else rule.deny
  }

  /** `getDenyMessage`: the rules in order, stopping at the first deny message. */
  function DenyMessage(env: Env, rules: seq<Rule>, player: Option<String>, params: seq<String>): (r: Option<String>)
    ensures r.Some? ==> exists i :: 0 <= i < |rules| && RuleDeny(env, rules[i], player, params) == r
    ensures rules != [] && RuleDeny(env, rules[0], player, params).Some? ==> r == RuleDeny(env, rules[0], player, params)
  {
    if rules == [] then None
    else
      var deny := RuleDeny(env, rules[0], player, params);
      if deny.Some? then deny
      else
        var rest := DenyMessage(env, rules[1..], player, params);
        assert forall j :: 0 <= j < |rules| - 1 ==> rules[1..][j] == rules[j + 1];
        rest
  }

  /** The answer is the deny message of the first rule that has one. */
  lemma {:induction false} DenyIsFirstFailing(env: Env, rules: seq<Rule>, player: Option<String>, params: seq<String>, i: nat)
    requires i < |rules| && RuleDeny(env, rules[i], player, params).Some?
    requires forall j :: 0 <= j < i ==> RuleDeny(env, rules[j], player, params).None?
    ensures DenyMessage(env, rules, player, params) == RuleDeny(env, rules[i], player, params)
  {
    if i > 0 {
      assert RuleDeny(env, rules[0], player, params).None?;
      forall j | 0 <= j < i - 1 ensures RuleDeny(env, rules[1..][j], player, params).None? {
        assert rules[1..][j] == rules[j + 1];
      }
      DenyIsFirstFailing(env, rules[1..], player, params, i - 1);
    }
  }

  /** There is no deny message exactly when every rule passes. */
  lemma {:induction false} NoDenyIffAllPass(env: Env, rules: seq<Rule>, player: Option<String>, params: seq<String>)
    ensures DenyMessage(env, rules, player, params).None? <==>
            forall j :: 0 <= j < |rules| ==> RuleDeny(env, rules[j], player, params).None?
  {
    if rules != [] {
      NoDenyIffAllPass(env, rules[1..], player, params);
      assert forall j :: 1 <= j < |rules| ==> rules[j] == rules[1..][j - 1];
    }
  }

  /** Rules after the first deny are never consulted: appending rules changes nothing. */
  lemma {:induction false} LaterRulesIrrelevant(env: Env, rules: seq<Rule>, more: seq<Rule>, player: Option<String>, params: seq<String>)
    requires DenyMessage(env, rules, player, params).Some?
    ensures DenyMessage(env, rules + more, player, params) == DenyMessage(env, rules, player, params)
  {
    assert (rules + more)[0] == rules[0];
    if RuleDeny(env, rules[0], player, params).None? {
      assert (rules + more)[1..] == rules[1..] + more;
      LaterRulesIrrelevant(env, rules[1..], more, player, params);
    }
  }

  /** A rule whose type no registered requirement accepts never denies. */
  lemma {:induction false} UnknownTypePasses(env: Env, rules: seq<Rule>, more: seq<Rule>, player: Option<String>, params: seq<String>, rule: Rule)
    requires forall k :: k in env.order ==> !env.matchIdentifier(k, rule.identifier)
    ensures DenyMessage(env, rules + [rule] + more, player, params) == DenyMessage(env, rules + more, player, params)
    decreases |rules|
  {
    if rules == [] {
      assert rules + [rule] + more == [rule] + more && rules + more == more;
      assert ([rule] + more)[0] == rule && ([rule] + more)[1..] == more;
      assert RequirementByType(env, rule.identifier).None?;
    } else {
      assert (rules + [rule] + more)[0] == rules[0] && (rules + more)[0] == rules[0];
      assert (rules + [rule] + more)[1..] == rules[1..] + [rule] + more;
      assert (rules + more)[1..] == rules[1..] + more;
      UnknownTypePasses(env, rules[1..], more, player, params, rule);
    }
  }
}
