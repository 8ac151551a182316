/**
  The main block: load the configuration, then scan the deciders in declared
  order and run the opener of the first one whose rule holds.
 */
module Decide {
  import opened Wrappers
  import opened Model
  import opened Rules
  import opened Openers
  import opened Loader

  /** Every decider before `i` has a rule that tests false. */
  ghost predicate NoneHoldsBefore(ds: seq<Decider>, env: Env, i: nat)
    requires i <= |ds|
  {
    forall j :: 0 <= j < i ==> Test(ds[j].rule, env) == Ok(false)
  }

  /**
    The first-match-wins outcome of scanning `config.deciders`: nothing when no
    rule holds; otherwise the lowest-index decider whose test does not say
    false decides alone, by its test's error, or by running its opener.
   */
  ghost predicate IsFirstMatchOutcome(config: Config, env: Env, r: Result<Outcome, Error>) {
    var ds := config.deciders;
    match r
    case Ok(NoMatch) => NoneHoldsBefore(ds, env, |ds|)
    case Ok(Opened(i, launch)) =>
      i < |ds| && NoneHoldsBefore(ds, env, i) && Test(ds[i].rule, env) == Ok(true)
      && Open(ds[i].opener, config, env) == Ok(launch)
    case Err(e) =>
      exists i :: 0 <= i < |ds| && NoneHoldsBefore(ds, env, i)
        && (Test(ds[i].rule, env) == Err(e)
            || (Test(ds[i].rule, env) == Ok(true) && Open(ds[i].opener, config, env) == Err(e)))
  }

  /** The loop of lines 131-134: the `break` is the early return. */
  method RunDeciders(config: Config, env: Env) returns (r: Result<Outcome, Error>)
    ensures IsFirstMatchOutcome(config, env, r)
  {
    var ds := config.deciders;
    var i := 0;
    while i < |ds|
      invariant 0 <= i <= |ds|
      invariant NoneHoldsBefore(ds, env, i)
    {
      var hit := Test(ds[i].rule, env);
      if hit.Err? {
        return Err(hit.error);
      }
      if hit.value {
        var launch := Open(ds[i].opener, config, env);
        if launch.Err? {
          return Err(launch.error);
        }
        return Ok(Opened(i, launch.value));
      }
      i := i + 1;
    }
    return Ok(NoMatch);
  }

  /** The whole `__main__` block on an already-parsed document: a load error
      ends the run before any rule is tested or any opener runs. */
  method Run(src: Node, env: Env) returns (r: Result<Outcome, Error>)
    ensures LoadConfig(src, env.compiles).Err? ==> r == Err(LoadConfig(src, env.compiles).error)
    ensures LoadConfig(src, env.compiles).Ok? ==> IsFirstMatchOutcome(LoadConfig(src, env.compiles).value, env, r)
  {
    var loaded := LoadConfig(src, env.compiles);
    if loaded.Err? {
      return Err(loaded.error);
    }
    r := RunDeciders(loaded.value, env);
  }

  /** The first-match outcome is determined by the configuration and the
      environment: at most one opener runs, and which one is fixed. */
  lemma OutcomeUnique(config: Config, env: Env, r1: Result<Outcome, Error>, r2: Result<Outcome, Error>)
    requires IsFirstMatchOutcome(config, env, r1)
    requires IsFirstMatchOutcome(config, env, r2)
    ensures r1 == r2
  {
  }

  /** The index at which an outcome was decided (`|ds|` for no match), and
      the facts that tie the outcome to that decider. */
  lemma DecidingIndex(config: Config, env: Env, r: Result<Outcome, Error>) returns (i: nat)
    requires IsFirstMatchOutcome(config, env, r)
    ensures i <= |config.deciders| && NoneHoldsBefore(config.deciders, env, i)
    ensures i == |config.deciders| <==> r == Ok(NoMatch)
    ensures i < |config.deciders| ==> Test(config.deciders[i].rule, env) != Ok(false)
    ensures i < |config.deciders| ==>
      var d := config.deciders[i];
      var t := Test(d.rule, env);
      r == if t.Err? then Err(t.error)
           else match Open(d.opener, config, env)
                case Ok(launch) => Ok(Opened(i, launch))
                case Err(e) => Err(e)
  {
    var ds := config.deciders;
    match r
    case Ok(NoMatch) => i := |ds|;
    case Ok(Opened(k, _)) => i := k;
    case Err(e) =>
      i :| 0 <= i < |ds| && NoneHoldsBefore(ds, env, i)
        && (Test(ds[i].rule, env) == Err(e)
            || (Test(ds[i].rule, env) == Ok(true) && Open(ds[i].opener, config, env) == Err(e)));
  }

  /** A decider whose rule always holds shadows every decider after it: the
      scan never gets past it, so no match is impossible and no later opener
      runs. */
  lemma AlwaysTrueShadowsLater(config: Config, env: Env, r: Result<Outcome, Error>, k: nat)
    requires IsFirstMatchOutcome(config, env, r)
    requires k < |config.deciders| && config.deciders[k].rule == AlwaysTrue
    ensures r != Ok(NoMatch)
    ensures r.Ok? ==> r.value.index <= k
  {
  }

  /** Nothing opens exactly when every rule tests false (without a URL a
      regex rule cannot be tested, which is an error, not a miss). */
  lemma NoMatchIffNoRuleHolds(config: Config, env: Env, r: Result<Outcome, Error>)
    requires IsFirstMatchOutcome(config, env, r)
    ensures r == Ok(NoMatch) <==>
      forall j :: 0 <= j < |config.deciders| ==> Test(config.deciders[j].rule, env) == Ok(false)
  {
  }

  /** The configuration of the end-to-end scenario: mail goes to "personal",
      everything else to a prompt over all profiles. */
  function MailScenario(): Node
  {
    Mapping(map[
      "firefox_binary_path" := Scalar("firefox"),
      "firefox_config_dir" := Scalar("/home/u/.mozilla/firefox"),
      "deciders" := List([
        Mapping(map[
          "rule" := Mapping(map["type" := Scalar("url_search_regex"), "pattern" := Scalar("mail\\.")]),
          "opener" := Mapping(map["type" := Scalar("fixed"), "profile" := Scalar("personal")])]),
        Mapping(map[
          "rule" := Mapping(map["type" := Scalar("match_all")]),
          "opener" := Mapping(map["type" := Scalar("ask_any")])])])])
  }

  lemma MailScenarioLoads(compiles: string -> bool)
    requires compiles("mail\\.")
    ensures LoadConfig(MailScenario(), compiles) == Ok(Config("firefox", "/home/u/.mozilla/firefox", [
      Decider(RegexUrl("mail\\."), FixedProfile("personal")),
      Decider(AlwaysTrue, ChooseFromAll)]))
  {
    var src := MailScenario();
    assert GetText(src, "firefox_binary_path") == Ok("firefox");
    assert GetText(src, "firefox_config_dir") == Ok("/home/u/.mozilla/firefox");
    var items := Get(src, "deciders").value.items;
    var d0 := Decider(RegexUrl("mail\\."), FixedProfile("personal"));
    var d1 := Decider(AlwaysTrue, ChooseFromAll);
    assert items[0] == DeciderSource(d0);
    assert items[1] == DeciderSource(d1);
    DeciderRoundTrip(d0, compiles);
    DeciderRoundTrip(d1, compiles);
    var loaded := LoadDeciders(items, compiles);
    assert loaded.Ok?;
    assert loaded.value == [d0, d1];
  }

  /** A mail URL launches "personal" without a prompt. */
  lemma MailUrlOpensPersonal(env: Env, r: Result<Outcome, Error>)
    requires env.compiles("mail\\.")
    requires |env.argv| >= 2 && env.search("mail\\.", env.argv[1])
    requires LoadConfig(MailScenario(), env.compiles).Ok?
    requires IsFirstMatchOutcome(LoadConfig(MailScenario(), env.compiles).value, env, r)
    ensures r == Ok(Opened(0, Launched("personal", LaunchCommand("firefox", "personal", env.argv))))
  {
    MailScenarioLoads(env.compiles);
  }

  /** Any other URL falls through to the prompt over all discovered profiles. */
  lemma OtherUrlPromptsForAll(env: Env, r: Result<Outcome, Error>)
    requires env.compiles("mail\\.")
    requires |env.argv| >= 2 && !env.search("mail\\.", env.argv[1])
    requires LoadConfig(MailScenario(), env.compiles).Ok?
    requires IsFirstMatchOutcome(LoadConfig(MailScenario(), env.compiles).value, env, r)
    ensures r.Ok? && r.value.Opened? && r.value.index == 1
    ensures r.value.launch.Launched? <==>
      env.event.Some? && Profiles.Declared(env.readProfiles("/home/u/.mozilla/firefox"), env.event.value)
    ensures r.value.launch.Launched? ==>
      r.value.launch == Launched(env.event.value, LaunchCommand("firefox", env.event.value, env.argv))
  {
    MailScenarioLoads(env.compiles);
  }
}
