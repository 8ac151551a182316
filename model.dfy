/**
  The data model of the profile chooser: the parsed configuration tree, the
  rule and opener variants, deciders, the loaded configuration, the errors a
  run can stop with, and the environment the program reads from outside.
 */
module Model {
  import opened Wrappers

  /** A node of the already-parsed YAML document. Scalars are kept as their text. */
  datatype Node =
    | Scalar(text: string)
    | List(items: seq<Node>)
    | Mapping(entries: map<string, Node>)

  /** The condition of a decider (`RuleAlwaysTrue`, `RuleRegexUrl`). */
  datatype Rule =
    | AlwaysTrue
    | RegexUrl(pattern: string)

  /** The action of a decider (`OpenerFixedProfile`, `OpenerManualChooseProfileList`,
      `OpenerManualChooseProfileAll`). */
  datatype Opener =
    | FixedProfile(profile: string)
    | ChooseFromList(profiles: seq<string>)
    | ChooseFromAll

  datatype Decider = Decider(rule: Rule, opener: Opener)

  datatype Config = Config(binaryPath: string, configDir: string, deciders: seq<Decider>)

  /** Everything that stops a run: the exceptions the source raises. */
  datatype Error =
    | MissingUrl                    // `sys.argv[1]` raises IndexError
    | NotAMapping(key: string)      // subscripting a node that is not a mapping
    | MissingKey(key: string)       // KeyError
    | NotAScalar(key: string)       // a value that must be text is not
    | NotAList(key: string)         // a value that must be a list is not
    | UnknownType(tag: Node)        // "unknown rule type in config"
    | InvalidPattern(pattern: string) // `re.compile` rejects the pattern

  /** One section of `profiles.ini`, as configparser presents it. */
  type Section = map<string, string>

  /**
    The collaborators the program consults outside its own logic:
    the process arguments, the regex engine (whether a pattern compiles, and
    whether a compiled pattern is found somewhere in a string), the reader of
    `profiles.ini` in a given directory, and the button the user clicks in the
    chooser window (None when the window is closed).
   */
  datatype Env = Env(
    argv: seq<string>,
    compiles: string -> bool,
    search: (string, string) -> bool,
    readProfiles: string -> seq<Section>,
    event: Option<string>)

  /** What one opener does: the command handed to `i3-msg exec`, or nothing. */
  datatype Launch =
    | Launched(profile: string, command: string)
    | NoLaunch

  /** What the decision loop does: no rule held, or decider `index` opened. */
  datatype Outcome =
    | NoMatch
    | Opened(index: nat, launch: Launch)

  /** `get_url`: the first argument after the program name. */
  function Url(argv: seq<string>): (r: Result<string, Error>)
    ensures r.Ok? <==> |argv| >= 2
    ensures r.Ok? ==> r.value == argv[1]
    ensures r.Err? ==> r.error == MissingUrl
  {
    if |argv| >= 2 then Ok(argv[1]) else Err(MissingUrl)
  }
}
