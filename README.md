# Firefox link profile chooser: a Dafny model

`firefox_open_link_profile_chooser.py` is started with a URL. It picks the Firefox profile
that should open the URL. Its configuration is an ordered list of *deciders*. Each decider
pairs a *rule* with an *opener*:

- Rules: `match_all` always holds. `url_search_regex` holds when its pattern is found
  somewhere in the URL.
- Openers: `fixed` launches one stored profile. `ask_from_list` shows a window with buttons
  for a fixed list of profiles. `ask_any` shows buttons for every profile named in Firefox's
  `profiles.ini`.
- The main block tests the rules in declared order. It runs the opener of the first decider
  whose rule holds, then stops. A launch is the command
  `<binary> -P <profile> "<all arguments after the program name, space-joined>"`,
  handed to `i3-msg exec`.

The model has these modules:

- `Model` (`model.dfy`): the data model. The parsed YAML tree (`Node`), `Rule`, `Opener`,
  `Decider`, `Config`, the `Error`s a run stops with, the outside world (`Env`), and
  `get_url`.
- `Profiles` (`profiles.dfy`): profile-name discovery from the sections of `profiles.ini`.
- `Rules` (`rules.dfy`): `Rule.test`.
- `Openers` (`openers.dfy`): command building, the chooser and `Opener.open`.
- `Loader` (`loader.dfy`): `load_config` with `load_rule`, `load_opener` and `load_decider`.
  Next to the loader are the inverse functions `RuleSource`, `OpenerSource`,
  `DeciderSource` and `ConfigSource`, and round-trip lemmas about them.
- `Decide` (`decide.dfy`): the main block. `RunDeciders` is the loop as a `while` loop. It is
  proved against `IsFirstMatchOutcome`, which states first-match-wins directly, and the
  lemma `OutcomeUnique` shows that this predicate pins down the result.

Everything outside the program's own logic is a field of `Env`:

- the process arguments (`argv`);
- the regex engine: whether a pattern compiles (`compiles`) and whether it is found in a
  string (`search`);
- the reader of `profiles.ini` for a directory (`readProfiles`);
- the button the user clicks, `None` when the window is closed (`event`).

Python exceptions are `Err` results:

- `IndexError` on `sys.argv[1]` is `MissingUrl`.
- `KeyError` is `MissingKey`.
- Subscripting a non-mapping is `NotAMapping`.
- A failing `re.compile` is `InvalidPattern`.
- Both "unknown rule type" raises are `UnknownType`. The source gives both the same
  message, including the one for openers.

The source behaves as follows, and the model follows it:

- `configparser.read` silently skips a missing `profiles.ini` (line 16), so an unreadable
  registry is not an error. It gives no names.
- With an empty candidate list the source still opens the window (lines 63-65), showing
  only the URL.
  The only thing the user can do is close it, so there is no launch. The model returns
  `NoLaunch` and does not tell "prompt shown" apart from "no prompt".
- A chooser either launches the clicked profile or does nothing (line 66). A closed window
  and a click outside the list end the same way. So an opener's outcome is
  `Launched(profile, command)` or `NoLaunch`.

## Model

| member | source | states |
|---|---|---|
| Model.Url | firefox_open_link_profile_chooser.py:20-21 | the URL is `argv[1]`; with fewer than two arguments the lookup fails with `MissingUrl` |
| Profiles.ProfileNames | firefox_open_link_profile_chooser.py:14-17 | the discovered names have no duplicates, and a name is listed exactly when some section carries it as its `name` |
| Rules.Test | firefox_open_link_profile_chooser.py:24-38 | `match_all` holds for every invocation, even one without a URL; a regex rule fails without a URL and otherwise holds exactly when its pattern is found in `argv[1]` |
| Rules.TestDependsOnlyOnUrl | firefox_open_link_profile_chooser.py:37-38 | a rule's verdict depends only on the URL and the regex engine |
| Openers.LaunchCommandQuotes | firefox_open_link_profile_chooser.py:47-49 | the launch command holds exactly two more double quotes than the binary, profile and arguments together, because nothing is escaped |
| Openers.LaunchCommandQuotedOnce | firefox_open_link_profile_chooser.py:48-49 | the argument string is one quoted word exactly when no input contains a double quote |
| Openers.Join | firefox_open_link_profile_chooser.py:48 | the joined text starts with the first part |
| Openers.ArgTail | firefox_open_link_profile_chooser.py:48 | `argv[1:]` is every argument after the program name, in order, and empty when there is none |
| Openers.SplitJoin | firefox_open_link_profile_chooser.py:48 | for at least one argument, splitting the space-joined arguments at the spaces gives them back in order, as long as no argument holds a space |
| Openers.LaunchCommand | firefox_open_link_profile_chooser.py:47-49 | when the binary and the profile hold no double quote, the quoted word of the command is exactly the space-joined argument tail |
| Openers.LaunchCommandPrefix | firefox_open_link_profile_chooser.py:49 | for every binary and profile free of double quotes, the command up to the first quote is exactly the binary, ` -P `, the profile and a space; the profile is not quoted |
| Openers.LaunchCommandWords | firefox_open_link_profile_chooser.py:49 | the shell words before the quoted one are the binary, `-P` and the profile, in that order, when the binary and profile hold no space or double quote |
| Openers.LaunchCommandCarriesArguments | firefox_open_link_profile_chooser.py:47-49 | for every argument list with at least one argument after the program name, the quoted word carries every argument after the program name in order: splitting it gives the tail back when no input holds a quote and no argument holds a space |
| Openers.ChooseAndOpen | firefox_open_link_profile_chooser.py:62-67 | fails without a URL (the window shows it); otherwise launches if and only if the clicked button is one of the candidates, and then launches exactly that profile with the command for it |
| Openers.ChooseDependsOnlyOnCandidateSet | firefox_open_link_profile_chooser.py:66-67 | the chooser's outcome depends only on which candidates there are, not on their order |
| Openers.EmptyCandidatesNeverLaunch | firefox_open_link_profile_chooser.py:62-67 | an empty candidate list never launches |
| Openers.Open | firefox_open_link_profile_chooser.py:52-80 | a fixed opener launches its stored profile; a list opener chooses from its list; an "ask any" opener chooses from the names the registry of the configured directory declares, so it launches only a declared profile, only the clicked one, with the command for it |
| Openers.FixedIgnoresEverythingElse | firefox_open_link_profile_chooser.py:52-57 | the fixed opener always launches; the launched profile depends on nothing in the environment, and the command depends only on the argument tail, not on the regex engine, the registry or the user |
| Openers.OnlyChooseFromAllReadsRegistry | firefox_open_link_profile_chooser.py:52-80 | fixed and list openers never consult the profile registry |
| Openers.ChooseFromAllLaunchesDeclared | firefox_open_link_profile_chooser.py:78-80 | with a URL, "ask any" launches exactly when the clicked button names a declared profile, and then launches that profile with its command |
| Loader.Get | firefox_open_link_profile_chooser.py:98 | `src[key]` succeeds exactly on a mapping that has the key; a missing key or a non-mapping is an error |
| Loader.GetText | firefox_open_link_profile_chooser.py:100 | a text read succeeds exactly when `src[key]` exists and is a scalar, and returns its text; otherwise it fails with the lookup's error or `NotAScalar` |
| Loader.GetTextList | firefox_open_link_profile_chooser.py:113 | succeeds exactly when `src[key]` exists and is a list of scalars, and then gives their texts in order; otherwise it fails with the lookup's error or `NotAList` |
| Loader.LoadRule | firefox_open_link_profile_chooser.py:97-104 | in both directions: `match_all` loads to the always-true rule whatever other keys the entry has; `url_search_regex` loads to a regex rule over the `pattern` text when it compiles, and otherwise fails with `InvalidPattern` or the lookup's error; a loaded rule's variant matches its tag; a missing `type` gives the lookup's error; an unknown tag fails with `UnknownType` |
| Loader.LoadOpener | firefox_open_link_profile_chooser.py:106-115 | in both directions: `ask_any` loads to the "ask any" opener; `fixed` loads to a fixed opener over the `profile` text, and `ask_from_list` to a list opener over the `profiles` texts, or fails with that lookup's error (`MissingKey` for a missing `profiles`, `NotAList` for a value that is not a list of texts); extra keys are ignored; a loaded opener's variant matches its tag; a missing `type` gives the lookup's error; an unknown tag fails with `UnknownType` |
| Loader.LoadDecider | firefox_open_link_profile_chooser.py:117-118 | a decider loads exactly when its `rule` and `opener` entries exist and load, and carries what they load to; the rule is loaded first, so its error wins; once the rule loads, a missing or broken `opener` gives that error |
| Loader.LoadDeciders | firefox_open_link_profile_chooser.py:117-125 | success exactly when every entry loads; then one decider per entry, the i-th from the i-th entry; otherwise the error is that of the first failing entry |
| Loader.LoadConfig | firefox_open_link_profile_chooser.py:96-126 | the load succeeds exactly when both paths are texts and `deciders` is a list whose entries all load; the result carries the two paths and those deciders; otherwise the error is that of the first failing field, in the order binary path, configuration directory, deciders |
| Loader.RuleRoundTrip | firefox_open_link_profile_chooser.py:97-104 | loading the entry that denotes a rule gives back that rule |
| Loader.OpenerRoundTrip | firefox_open_link_profile_chooser.py:106-115 | loading the entry that denotes an opener gives back that opener |
| Loader.DeciderRoundTrip | firefox_open_link_profile_chooser.py:117-118 | loading the entry that denotes a decider gives back that decider |
| Loader.ConfigRoundTrip | firefox_open_link_profile_chooser.py:96-126 | loading the document that denotes a configuration gives back that configuration, with deciders in declared order |
| Loader.UnknownTagFailsLoad | firefox_open_link_profile_chooser.py:103-104 | one entry with an unknown rule or opener tag fails the whole load |
| Loader.InvalidPatternFailsRule | firefox_open_link_profile_chooser.py:35 | a regex rule whose pattern does not compile fails the load |
| Decide.RunDeciders | firefox_open_link_profile_chooser.py:131-134 | the result is the first-match outcome: no match only when every rule tests false; otherwise the lowest-index decider whose rule does not test false decides alone, and the opener that runs is its opener |
| Decide.Run | firefox_open_link_profile_chooser.py:128-134 | a load failure ends the run with that error before any rule or opener runs; otherwise the outcome is the first-match outcome over the loaded deciders |
| Decide.OutcomeUnique | firefox_open_link_profile_chooser.py:131-134 | the first-match outcome is unique: at most one opener runs, and which one is fixed by the configuration and the environment |
| Decide.DecidingIndex | firefox_open_link_profile_chooser.py:131-134 | every outcome is decided at one index: all rules before it test false, and the outcome is that decider's test error or its opener's result |
| Decide.AlwaysTrueShadowsLater | firefox_open_link_profile_chooser.py:131-134 | a `match_all` decider rules out "no match", and no decider after it opens |
| Decide.NoMatchIffNoRuleHolds | firefox_open_link_profile_chooser.py:131-134 | the outcome is no match exactly when every rule tests false (without a URL, a regex rule is an error, not a miss) |
| Decide.MailScenarioLoads | firefox_open_link_profile_chooser.py:96-126 | the two-decider "mail, then ask any" document loads to its two deciders in order |
| Decide.MailUrlOpensPersonal | firefox_open_link_profile_chooser.py:131-134 | in that scenario a URL the mail pattern matches launches `personal` from the first decider |
| Decide.OtherUrlPromptsForAll | firefox_open_link_profile_chooser.py:131-134 | in that scenario any other URL goes to the second decider, a prompt over all declared profiles; it launches exactly when the click names a declared profile, and then that profile with its command |

## Left out

- Drawing the PySimpleGUI window and reading it (lines 63-65): this is UI. The click is `Env.event`. PySimpleGUI's renaming of duplicate button keys is not modelled.
- Running `i3-msg exec` (line 49): this spawns a process. The model returns the command string.
- Reading and parsing the YAML file (lines 120-121): this is I/O and a foreign library. The input is an already-parsed `Node` tree. YAML scalars of every type are represented by their text.
- Reading `profiles.ini` with configparser (lines 15-16): this is file I/O. `Env.readProfiles` gives the sections, with configparser's defaults already merged. configparser's own parse errors are not modelled.
- Compiling and running regexes (lines 35, 38): these come from a foreign library. They are the uninterpreted `Env.compiles` and `Env.search`.
- `sys.argv`, `HOME` and the configuration path (lines 21, 129): this is ambient state. `argv` is passed in `Env`, and the configuration arrives as the parsed document.
- Profile order (line 17): the order of a Python set is unspecified. `ProfileNames` fixes one order but promises only membership and no duplicates. `ChooseDependsOnlyOnCandidateSet` shows that the order cannot change the outcome.
- Loader.LoadRule: any scalar is accepted as a `pattern` and its text is compiled. Python's `re.compile` raises TypeError for a non-string YAML scalar (`pattern: 42`, `pattern: true`, an empty `pattern:`), so that load error is not modelled.
- Loader.LoadOpener: a `profile` that is not a scalar, or a `profiles` that is not a list of scalars, is a load error here. Python stores such values unchecked and would format or search them later.
- Loader.LoadConfig: the binary path and configuration directory must be scalars, and `deciders` must be a list. Python would also iterate an empty mapping or an empty string as "no deciders".
