/** CRUDZillaSecurity: whether the current caller may run an operation on an entity
    type, decided by the `security` rules of its `@CRUDZillaConfig`.

    The Spring Expression Language evaluator behind `@`-rules is a parameter, and the
    caller's authentication is given as a value. */
module Security {
  import opened Wrappers
  import opened Model
  import opened Reflections

  /** The authentication in the security context: none, or one with its authorities
      (a null collection when absent). */
  datatype Caller = Unauthenticated | Authenticated(authorities: Option<seq<string>>)

  /** The first rule that guards the operation, if any. */
  function FirstRuleFor(rules: seq<SecurityRule>, op: Operation): (r: Option<SecurityRule>)
    ensures r.None? <==> forall i :: 0 <= i < |rules| ==> rules[i].operation != op
    ensures r.Some? ==>
      (exists j :: 0 <= j < |rules| && rules[j] == r.value && r.value.operation == op &&
         forall i :: 0 <= i < j ==> rules[i].operation != op)
  {
    if |rules| == 0 then None
    else if rules[0].operation == op then Some(rules[0])
    else
      var r := FirstRuleFor(rules[1..], op);
      assert forall i :: 1 <= i < |rules| ==> rules[i] == rules[1..][i - 1];
      r
  }

  predicate StartsWith(s: string, prefix: string) {
    |prefix| <= |s| && s[..|prefix|] == prefix
  }

  const DenyRule: string := "deny"

  /** The decision once the rule guarding the operation is known: `"deny"` rejects,
      an `@`-expression is evaluated, and any other value names the authority the
      caller must hold. */
  function RuleDecision(rule: SecurityRule, evaluate: SecurityRule -> Result<bool>, caller: Caller): (r: Result<bool>)
    ensures rule.value == DenyRule ==> r == Ok(false)
    ensures rule.value != DenyRule && StartsWith(rule.value, "@") ==> r == evaluate(rule)
    ensures rule.value != DenyRule && !StartsWith(rule.value, "@") ==>
      match caller
      case Unauthenticated => r == Err(NullPointer)
      case Authenticated(authorities) =>
        r == Ok(authorities.Some? && |authorities.value| > 0 && rule.value in authorities.value)
  {
    if rule.value == DenyRule then Ok(false)
    else if |rule.value| > 0 && rule.value[0] == '@' then evaluate(rule)
    else match caller
      case Unauthenticated => Err(NullPointer)
      case Authenticated(authorities) =>
        if authorities.None? || |authorities.value| == 0 then Ok(false)
        else Ok(exists i :: 0 <= i < |authorities.value| && authorities.value[i] == rule.value)
  }

  /** check(Class, operation): enums always pass; a class that is not enabled is an
      error; no rules, or no rule for the operation, allows; otherwise the first rule
      for the operation decides. */
  function Check(c: ClassDecl, op: Operation, evaluate: SecurityRule -> Result<bool>, caller: Caller): (r: Result<bool>)
    ensures c.isEnum ==> r == Ok(true)
    ensures !c.isEnum && c.config.None? ==> r == Err(NotImplemented)
    ensures !c.isEnum && c.config.Some? && FirstRuleFor(c.config.value.security, op).None? ==> r == Ok(true)
    ensures !c.isEnum && c.config.Some? && FirstRuleFor(c.config.value.security, op).Some? ==>
      r == RuleDecision(FirstRuleFor(c.config.value.security, op).value, evaluate, caller)
  {
    if c.isEnum then Ok(true)
    else if c.config.None? then Err(NotImplemented)
    else
      var rules := c.config.value.security;
      if |rules| == 0 then Ok(true)
      else
        match FirstRuleFor(rules, op)
        case None => Ok(true)
        case Some(rule) => RuleDecision(rule, evaluate, caller)
  }

  /** check(key, operation): the check of the class registered under the key. */
  function CheckKey(refl: EntityReflections, key: string, op: Operation, evaluate: SecurityRule -> Result<bool>, caller: Caller): (r: Result<bool>)
    ensures key !in refl.entitiesMap ==> r == Err(KeyNotFound)
    ensures key in refl.entitiesMap ==> r == Check(refl.entitiesMap[key], op, evaluate, caller)
  {
    var c :- refl.GetEntityClass(key);
    Check(c, op, evaluate, caller)
  }

  /** Rules after the first one for the operation never matter. */
  lemma {:induction false} FirstRuleIgnoresLater(rules: seq<SecurityRule>, later: seq<SecurityRule>, op: Operation)
    requires FirstRuleFor(rules, op).Some?
    ensures FirstRuleFor(rules + later, op) == FirstRuleFor(rules, op)
    decreases |rules|
  {
    if rules[0].operation != op {
      assert (rules + later)[1..] == rules[1..] + later;
      FirstRuleIgnoresLater(rules[1..], later, op);
    }
  }

  /** Adding rules after a rule for the operation does not change any decision. */
  lemma CheckIgnoresLaterRules(c: ClassDecl, later: seq<SecurityRule>, op: Operation,
                               evaluate: SecurityRule -> Result<bool>, caller: Caller)
    requires !c.isEnum && c.config.Some? && FirstRuleFor(c.config.value.security, op).Some?
    ensures Check(c.(config := Some(c.config.value.(security := c.config.value.security + later))), op, evaluate, caller)
         == Check(c, op, evaluate, caller)
  {
    FirstRuleIgnoresLater(c.config.value.security, later, op);
  }

  /** A `"deny"` rule rejects every caller, whatever authorities it holds and whatever
      the evaluator would say. */
  lemma DenyRejectsEveryone(c: ClassDecl, op: Operation, e1: SecurityRule -> Result<bool>, c1: Caller)
    requires !c.isEnum && c.config.Some? && FirstRuleFor(c.config.value.security, op).Some?
    requires FirstRuleFor(c.config.value.security, op).value.value == DenyRule
    ensures Check(c, op, e1, c1) == Ok(false)
  {
  }

  /** The outcome of an `@`-rule does not depend on the caller's authorities. */
  lemma ExpressionIgnoresAuthorities(c: ClassDecl, op: Operation, evaluate: SecurityRule -> Result<bool>, c1: Caller, c2: Caller)
    requires !c.isEnum && c.config.Some? && FirstRuleFor(c.config.value.security, op).Some?
    requires StartsWith(FirstRuleFor(c.config.value.security, op).value.value, "@")
    ensures Check(c, op, evaluate, c1) == Check(c, op, evaluate, c2)
  {
  }

  /** An annotation with the default, empty `security` allows every operation to everyone. */
  lemma DefaultSecurityAllowsAll(c: ClassDecl, op: Operation, evaluate: SecurityRule -> Result<bool>, caller: Caller)
    requires c.config.Some? && c.config.value == DefaultConfig(c.config.value.key)
    ensures Check(c, op, evaluate, caller) == Ok(true)
  {
  }
}
