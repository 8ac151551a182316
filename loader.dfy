/**
  `load_config`: turning the parsed YAML document into a configuration. Each
  step raises on a missing key, a value of the wrong shape or an unknown type
  tag; the first such error ends the whole load.
 */
module Loader {
  import opened Wrappers
  import opened Model

  /** `src[key]` on a node of the document. */
  function Get(src: Node, key: string): (r: Result<Node, Error>)
    ensures r.Ok? <==> src.Mapping? && key in src.entries
    ensures r.Ok? ==> r.value == src.entries[key]
    ensures !src.Mapping? ==> r == Err(NotAMapping(key))
    ensures src.Mapping? && key !in src.entries ==> r == Err(MissingKey(key))
  {
    if !src.Mapping? then Err(NotAMapping(key))
    else if key !in src.entries then Err(MissingKey(key))
    else Ok(src.entries[key])
  }

  /** `src[key]` where the value must be text. */
  function GetText(src: Node, key: string): (r: Result<string, Error>)
    ensures r.Ok? <==> Get(src, key).Ok? && Get(src, key).value.Scalar?
    ensures r.Ok? ==> Get(src, key).value == Scalar(r.value)
    ensures Get(src, key).Err? ==> r == Err(Get(src, key).error)
    ensures Get(src, key).Ok? && !Get(src, key).value.Scalar? ==> r == Err(NotAScalar(key))
  {
    var v :- Get(src, key);
    if v.Scalar? then Ok(v.text) else Err(NotAScalar(key))
  }

  /** A list node whose items are all scalars. */
  predicate IsTextList(v: Node) {
    v.List? && forall i :: 0 <= i < |v.items| ==> v.items[i].Scalar?
  }

  /** `src[key]` where the value must be a list of texts. */
  function GetTextList(src: Node, key: string): (r: Result<seq<string>, Error>)
    ensures r.Ok? <==> Get(src, key).Ok? && IsTextList(Get(src, key).value)
    ensures r.Ok? ==> Get(src, key).value == List(seq(|r.value|, i requires 0 <= i < |r.value| => Scalar(r.value[i])))
    ensures Get(src, key).Err? ==> r == Err(Get(src, key).error)
    ensures Get(src, key).Ok? && !IsTextList(Get(src, key).value) ==> r == Err(NotAList(key))
  {
    var v :- Get(src, key);
    if IsTextList(v) then
      var texts := seq(|v.items|, i requires 0 <= i < |v.items| => v.items[i].text);
      assert v.items == seq(|texts|, i requires 0 <= i < |texts| => Scalar(texts[i]));
      Ok(texts)
    else Err(NotAList(key))
  }

  /** The type tag of each rule variant in the configuration file. */
  function RuleTag(rule: Rule): string
  {
    match rule
    case AlwaysTrue => "match_all"
    case RegexUrl(_) => "url_search_regex"
  }

  /** The type tag of each opener variant in the configuration file. */
  function OpenerTag(opener: Opener): string
  {
    match opener
    case FixedProfile(_) => "fixed"
    case ChooseFromList(_) => "ask_from_list"
    case ChooseFromAll => "ask_any"
  }

  ghost predicate IsRuleTag(tag: Node) {
    tag == Scalar("match_all") || tag == Scalar("url_search_regex")
  }

  ghost predicate IsOpenerTag(tag: Node) {
    tag == Scalar("fixed") || tag == Scalar("ask_from_list") || tag == Scalar("ask_any")
  }

  /** `load_rule`. */
  function LoadRule(src: Node, compiles: string -> bool): (r: Result<Rule, Error>)
    ensures r.Ok? ==> Get(src, "type") == Ok(Scalar(RuleTag(r.value)))
    ensures r.Ok? && r.value.RegexUrl? ==>
      GetText(src, "pattern") == Ok(r.value.pattern) && compiles(r.value.pattern)
    ensures Get(src, "type").Ok? && !IsRuleTag(Get(src, "type").value) ==>
      r == Err(UnknownType(Get(src, "type").value))
    ensures Get(src, "type").Err? ==> r == Err(Get(src, "type").error)
    ensures Get(src, "type") == Ok(Scalar("match_all")) ==> r == Ok(AlwaysTrue)
    ensures Get(src, "type") == Ok(Scalar("url_search_regex")) && GetText(src, "pattern").Err? ==>
      r == Err(GetText(src, "pattern").error)
    ensures Get(src, "type") == Ok(Scalar("url_search_regex")) && GetText(src, "pattern").Ok? ==>
      var p := GetText(src, "pattern").value;
      r == if compiles(p) then Ok(RegexUrl(p)) else Err(InvalidPattern(p))
  {
    var tag :- Get(src, "type");
    if tag == Scalar("url_search_regex") then
      var pattern :- GetText(src, "pattern");
      if compiles(pattern) then Ok(RegexUrl(pattern)) else Err(InvalidPattern(pattern))
    else if tag == Scalar("match_all") then Ok(AlwaysTrue)
    else Err(UnknownType(tag))
  }

  /** `load_opener`. */
  function LoadOpener(src: Node): (r: Result<Opener, Error>)
    ensures r.Ok? ==> Get(src, "type") == Ok(Scalar(OpenerTag(r.value)))
    ensures r.Ok? && r.value.FixedProfile? ==> GetText(src, "profile") == Ok(r.value.profile)
    ensures r.Ok? && r.value.ChooseFromList? ==> GetTextList(src, "profiles") == Ok(r.value.profiles)
    ensures Get(src, "type").Ok? && !IsOpenerTag(Get(src, "type").value) ==>
      r == Err(UnknownType(Get(src, "type").value))
    ensures Get(src, "type").Err? ==> r == Err(Get(src, "type").error)
    ensures Get(src, "type") == Ok(Scalar("ask_any")) ==> r == Ok(ChooseFromAll)
    ensures Get(src, "type") == Ok(Scalar("fixed")) ==>
      r == match GetText(src, "profile")
           case Ok(p) => Ok(FixedProfile(p))
           case Err(e) => Err(e)
    ensures Get(src, "type") == Ok(Scalar("ask_from_list")) ==>
      r == match GetTextList(src, "profiles")
           case Ok(ps) => Ok(ChooseFromList(ps))
           case Err(e) => Err(e)
  {
    var tag :- Get(src, "type");
    if tag == Scalar("fixed") then
      var profile :- GetText(src, "profile");
      Ok(FixedProfile(profile))
    else if tag == Scalar("ask_any") then Ok(ChooseFromAll)
    else if tag == Scalar("ask_from_list") then
      var profiles :- GetTextList(src, "profiles");
      Ok(ChooseFromList(profiles))
    else Err(UnknownType(tag))
  }

  /** `load_decider`: the rule is loaded before the opener, so a broken rule
      reports its error even when the opener is broken too. */
  function LoadDecider(src: Node, compiles: string -> bool): (r: Result<Decider, Error>)
    ensures r.Ok? <==> Get(src, "rule").Ok? && LoadRule(Get(src, "rule").value, compiles).Ok?
                       && Get(src, "opener").Ok? && LoadOpener(Get(src, "opener").value).Ok?
    ensures r.Ok? ==> LoadRule(Get(src, "rule").value, compiles) == Ok(r.value.rule)
                      && LoadOpener(Get(src, "opener").value) == Ok(r.value.opener)
    ensures Get(src, "rule").Err? ==> r == Err(Get(src, "rule").error)
    ensures Get(src, "rule").Ok? && LoadRule(Get(src, "rule").value, compiles).Err? ==>
      r == Err(LoadRule(Get(src, "rule").value, compiles).error)
    ensures Get(src, "rule").Ok? && LoadRule(Get(src, "rule").value, compiles).Ok?
            && Get(src, "opener").Err? ==>
      r == Err(Get(src, "opener").error)
    ensures Get(src, "rule").Ok? && LoadRule(Get(src, "rule").value, compiles).Ok?
            && Get(src, "opener").Ok? && LoadOpener(Get(src, "opener").value).Err? ==>
      r == Err(LoadOpener(Get(src, "opener").value).error)
  {
    var ruleSrc :- Get(src, "rule");
    var rule :- LoadRule(ruleSrc, compiles);
    var openerSrc :- Get(src, "opener");
    var opener :- LoadOpener(openerSrc);
    Ok(Decider(rule, opener))
  }

  /**
    The list comprehension of line 125: in declared order, one decider per
    entry; the first entry that fails to load fails the whole list with its
    error.
   */
  function LoadDeciders(items: seq<Node>, compiles: string -> bool): (r: Result<seq<Decider>, Error>)
    ensures r.Ok? <==> forall i :: 0 <= i < |items| ==> LoadDecider(items[i], compiles).Ok?
    ensures r.Ok? ==> |r.value| == |items|
    ensures r.Ok? ==> forall i :: 0 <= i < |items| ==> LoadDecider(items[i], compiles) == Ok(r.value[i])
    ensures r.Err? ==> exists i :: 0 <= i < |items| && LoadDecider(items[i], compiles) == Err(r.error)
                               && forall j :: 0 <= j < i ==> LoadDecider(items[j], compiles).Ok?
  {
    if |items| == 0 then Ok([])
    else
      var d :- LoadDecider(items[0], compiles);
      var rest := LoadDeciders(items[1..], compiles);
      assert forall i :: 1 <= i < |items| ==> items[i] == items[1..][i - 1];
      if rest.Err? then
        var k :| 0 <= k < |items[1..]| && LoadDecider(items[1..][k], compiles) == Err(rest.error)
                 && forall j :: 0 <= j < k ==> LoadDecider(items[1..][j], compiles).Ok?;
        assert LoadDecider(items[k + 1], compiles) == Err(rest.error);
        Err(rest.error)
      else
        Ok([d] + rest.value)
  }

  /** `load_config`: the keyword arguments are evaluated in the order written. */
  function LoadConfig(src: Node, compiles: string -> bool): (r: Result<Config, Error>)
    ensures r.Ok? ==> GetText(src, "firefox_binary_path") == Ok(r.value.binaryPath)
    ensures r.Ok? ==> GetText(src, "firefox_config_dir") == Ok(r.value.configDir)
    ensures r.Ok? ==> Get(src, "deciders").Ok? && Get(src, "deciders").value.List?
    ensures r.Ok? ==> LoadDeciders(Get(src, "deciders").value.items, compiles) == Ok(r.value.deciders)
    ensures r.Ok? <==>
      GetText(src, "firefox_binary_path").Ok? && GetText(src, "firefox_config_dir").Ok?
      && Get(src, "deciders").Ok? && Get(src, "deciders").value.List?
      && LoadDeciders(Get(src, "deciders").value.items, compiles).Ok?
    // The fields fail in the order they are written: binary path, directory, deciders.
    ensures GetText(src, "firefox_binary_path").Err? ==> r == Err(GetText(src, "firefox_binary_path").error)
    ensures GetText(src, "firefox_binary_path").Ok? && GetText(src, "firefox_config_dir").Err? ==>
      r == Err(GetText(src, "firefox_config_dir").error)
    ensures GetText(src, "firefox_binary_path").Ok? && GetText(src, "firefox_config_dir").Ok?
            && Get(src, "deciders").Err? ==>
      r == Err(Get(src, "deciders").error)
    ensures GetText(src, "firefox_binary_path").Ok? && GetText(src, "firefox_config_dir").Ok?
            && Get(src, "deciders").Ok? && !Get(src, "deciders").value.List? ==>
      r == Err(NotAList("deciders"))
    ensures GetText(src, "firefox_binary_path").Ok? && GetText(src, "firefox_config_dir").Ok?
            && Get(src, "deciders").Ok? && Get(src, "deciders").value.List?
            && LoadDeciders(Get(src, "deciders").value.items, compiles).Err? ==>
      r == Err(LoadDeciders(Get(src, "deciders").value.items, compiles).error)
  {
    var binary :- GetText(src, "firefox_binary_path");
    var dir :- GetText(src, "firefox_config_dir");
    var decidersSrc :- Get(src, "deciders");
    if !decidersSrc.List? then Err(NotAList("deciders"))
    else
      var deciders :- LoadDeciders(decidersSrc.items, compiles);
      Ok(Config(binary, dir, deciders))
  }

  /** A configuration entry that denotes `rule`. */
  function RuleSource(rule: Rule): Node
  {
    match rule
    case AlwaysTrue => Mapping(map["type" := Scalar(RuleTag(rule))])
    case RegexUrl(p) => Mapping(map["type" := Scalar(RuleTag(rule)), "pattern" := Scalar(p)])
  }

  /** A configuration entry that denotes `opener`. */
  function OpenerSource(opener: Opener): Node
  {
    match opener
    case FixedProfile(p) => Mapping(map["type" := Scalar(OpenerTag(opener)), "profile" := Scalar(p)])
    case ChooseFromList(ps) =>
      Mapping(map["type" := Scalar(OpenerTag(opener)),
                  "profiles" := List(seq(|ps|, i requires 0 <= i < |ps| => Scalar(ps[i])))])
    case ChooseFromAll => Mapping(map["type" := Scalar(OpenerTag(opener))])
  }

  function DeciderSource(d: Decider): Node
  {
    Mapping(map["rule" := RuleSource(d.rule), "opener" := OpenerSource(d.opener)])
  }

  /** A configuration document that denotes `config`. */
  function ConfigSource(config: Config): Node
  {
    var ds := config.deciders;
    Mapping(map[
      "firefox_binary_path" := Scalar(config.binaryPath),
      "firefox_config_dir" := Scalar(config.configDir),
      "deciders" := List(seq(|ds|, i requires 0 <= i < |ds| => DeciderSource(ds[i])))])
  }

  /** Every regex pattern of the configuration compiles. */
  ghost predicate PatternsCompile(config: Config, compiles: string -> bool) {
    forall i :: 0 <= i < |config.deciders| && config.deciders[i].rule.RegexUrl? ==>
      compiles(config.deciders[i].rule.pattern)
  }

  lemma RuleRoundTrip(rule: Rule, compiles: string -> bool)
    requires rule.RegexUrl? ==> compiles(rule.pattern)
    ensures LoadRule(RuleSource(rule), compiles) == Ok(rule)
  {
  }

  lemma OpenerRoundTrip(opener: Opener)
    ensures LoadOpener(OpenerSource(opener)) == Ok(opener)
  {
    if opener.ChooseFromList? {
      var ps := opener.profiles;
      var items := seq(|ps|, i requires 0 <= i < |ps| => Scalar(ps[i]));
      assert GetTextList(OpenerSource(opener), "profiles") == Ok(seq(|items|, i requires 0 <= i < |items| => items[i].text));
      assert seq(|items|, i requires 0 <= i < |items| => items[i].text) == ps;
    }
  }

  lemma DeciderRoundTrip(d: Decider, compiles: string -> bool)
    requires d.rule.RegexUrl? ==> compiles(d.rule.pattern)
    ensures LoadDecider(DeciderSource(d), compiles) == Ok(d)
  {
    RuleRoundTrip(d.rule, compiles);
    OpenerRoundTrip(d.opener);
  }

  /** Loading the document that denotes a configuration gives back that
      configuration, deciders in the same order. */
  lemma ConfigRoundTrip(config: Config, compiles: string -> bool)
    requires PatternsCompile(config, compiles)
    ensures LoadConfig(ConfigSource(config), compiles) == Ok(config)
  {
    var ds := config.deciders;
    var items := seq(|ds|, i requires 0 <= i < |ds| => DeciderSource(ds[i]));
    forall i | 0 <= i < |items| ensures LoadDecider(items[i], compiles) == Ok(ds[i]) {
      DeciderRoundTrip(ds[i], compiles);
    }
    var loaded := LoadDeciders(items, compiles);
    assert loaded.Ok?;
    assert loaded.value == ds;
  }

  /** One entry whose rule or opener carries an unknown type tag fails the
      whole load, whatever the other entries hold. */
  lemma UnknownTagFailsLoad(src: Node, compiles: string -> bool, k: nat)
    requires Get(src, "deciders").Ok? && Get(src, "deciders").value.List?
    requires k < |Get(src, "deciders").value.items|
    requires var entry := Get(src, "deciders").value.items[k];
      (Get(entry, "rule").Ok? && Get(Get(entry, "rule").value, "type").Ok?
         && !IsRuleTag(Get(Get(entry, "rule").value, "type").value))
      || (Get(entry, "opener").Ok? && Get(Get(entry, "opener").value, "type").Ok?
         && !IsOpenerTag(Get(Get(entry, "opener").value, "type").value))
    ensures LoadConfig(src, compiles).Err?
  {
  }

  /** The "url_search_regex" tag with a pattern that does not compile fails. */
  lemma InvalidPatternFailsRule(pattern: string, compiles: string -> bool)
    requires !compiles(pattern)
    ensures LoadRule(Mapping(map["type" := Scalar("url_search_regex"), "pattern" := Scalar(pattern)]), compiles)
         == Err(InvalidPattern(pattern))
  {
  }
}
