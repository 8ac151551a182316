/** `Rule.test`: whether a decider's condition holds for this invocation. */
module Rules {
  import opened Wrappers
  import opened Model

  /**
    `RuleAlwaysTrue.test` holds for every invocation, even one without a URL.
    `RuleRegexUrl.test` reads `sys.argv[1]`, so it fails when there is no URL,
    and otherwise holds exactly when the pattern is found somewhere in it.
   */
  function Test(rule: Rule, env: Env): (r: Result<bool, Error>)
    ensures rule.AlwaysTrue? ==> r == Ok(true)
    ensures rule.RegexUrl? ==> (r.Ok? <==> |env.argv| >= 2)
    ensures rule.RegexUrl? && r.Err? ==> r.error == MissingUrl
    ensures rule.RegexUrl? && r.Ok? ==> r.value == env.search(rule.pattern, env.argv[1])
  {
    match rule
    case AlwaysTrue => Ok(true)
    case RegexUrl(pattern) =>
      var url :- Url(env.argv);
      Ok(env.search(pattern, url))
  }

  /** A rule only looks at the URL: two invocations with the same URL (or both
      without one) and the same regex engine test alike. */
  lemma TestDependsOnlyOnUrl(rule: Rule, e1: Env, e2: Env)
    requires Url(e1.argv) == Url(e2.argv)
    requires e1.search == e2.search
    ensures Test(rule, e1) == Test(rule, e2)
  {
  }
}
