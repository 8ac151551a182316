/** `Opener.open`: building the launch command and choosing the profile. */
module Openers {
  import opened Wrappers
  import opened Model
  import opened Profiles

  /** Python's `sep.join(parts)`: the parts in order, a separator between
      each two; the first part leads. */
  function Join(sep: string, parts: seq<string>): (joined: string)
    ensures |parts| > 0 ==> |parts[0]| <= |joined| && joined[..|parts[0]|] == parts[0]
  {
    if |parts| == 0 then ""
    else if |parts| == 1 then parts[0]
    else parts[0] + sep + Join(sep, parts[1..])
  }

  /** Python's `s.split(c)`: the pieces between the occurrences of `c`. */
  function Split(c: char, s: string): (pieces: seq<string>)
    ensures |pieces| >= 1
  {
    if |s| == 0 then [""]
    else if s[0] == c then [""] + Split(c, s[1..])
    else
      var rest := Split(c, s[1..]);
      [[s[0]] + rest[0]] + rest[1..]
  }

  /** Text free of `c` stays in the first piece of the split. */
  lemma {:induction false} SplitPrefix(c: char, a: string, b: string)
    requires c !in a
    ensures Split(c, a + b) == [a + Split(c, b)[0]] + Split(c, b)[1..]
  {
    if |a| > 0 {
      assert (a + b)[0] == a[0];
      assert (a + b)[1..] == a[1..] + b;
      SplitPrefix(c, a[1..], b);
      assert [a[0]] + (a[1..] + Split(c, b)[0]) == a + Split(c, b)[0];
    } else {
      assert a + b == b;
      assert a + Split(c, b)[0] == Split(c, b)[0];
      assert Split(c, b) == [Split(c, b)[0]] + Split(c, b)[1..];
    }
  }

  /**
    Splitting the space-joined arguments at the spaces gives the arguments back,
    in order, as long as none of them holds a space itself.
   */
  lemma {:induction false} SplitJoin(c: char, parts: seq<string>)
    requires |parts| > 0
    requires forall i :: 0 <= i < |parts| ==> c !in parts[i]
    ensures Split(c, Join([c], parts)) == parts
  {
    if |parts| == 1 {
      SplitPrefix(c, parts[0], "");
      assert parts[0] + "" == parts[0];
    } else {
      var rest := Join([c], parts[1..]);
      SplitJoin(c, parts[1..]);
      assert parts[0] + [c] + rest == parts[0] + ([c] + rest);
      SplitPrefix(c, parts[0], [c] + rest);
      assert ([c] + rest)[1..] == rest;
      assert parts[0] + "" == parts[0];
      assert parts == [parts[0]] + parts[1..];
    }
  }

  /** Python's `argv[1:]`: every element after the first, in order; empty for
      a list of at most one element. */
  function ArgTail(argv: seq<string>): (tail: seq<string>)
    ensures |argv| == 0 ==> tail == []
    ensures |argv| > 0 ==> |tail| == |argv| - 1
    ensures forall i :: 0 <= i < |tail| ==> tail[i] == argv[i + 1]
  {
    if |argv| == 0 then [] else argv[1..]
  }

  /** The index of the first `c` in `s`, or `|s|` when there is none. */
  function FirstIndex(c: char, s: string): (i: nat)
    ensures i <= |s|
    ensures forall k :: 0 <= k < i ==> s[k] != c
    ensures i < |s| ==> s[i] == c
  {
    if |s| == 0 then 0 else if s[0] == c then 0 else 1 + FirstIndex(c, s[1..])
  }

  /** The text a shell would read as the quoted word of a launch command: from
      after the first double quote up to the closing one at the end. */
  function QuotedTail(command: string): string
  {
    var i := FirstIndex('"', command);
    if i + 1 <= |command| - 1 then command[i + 1..|command| - 1] else ""
  }

  lemma QuotedTailOf(prefix: string, word: string)
    requires '"' !in prefix
    ensures QuotedTail(prefix + "\"" + word + "\"") == word
  {
    var command := prefix + "\"" + word + "\"";
    assert command[|prefix|] == '"';
    assert forall k :: 0 <= k < |prefix| ==> command[k] == prefix[k];
    assert FirstIndex('"', command) == |prefix|;
    assert command[|prefix| + 1..|command| - 1] == word;
  }

  /**
    `open_with_profile`: the command line handed to `i3-msg exec`: the binary,
    `-P`, the profile, and every argument after the program name joined by
    spaces inside one pair of double quotes (nothing is escaped). When the
    binary and the profile hold no double quote, the quoted word is exactly
    the space-joined argument tail.
   */
  function LaunchCommand(binary: string, profile: string, argv: seq<string>): (command: string)
    ensures '"' !in binary && '"' !in profile ==> QuotedTail(command) == Join(" ", ArgTail(argv))
  {
    var prefix := binary + " -P " + profile + " ";
    var word := Join(" ", ArgTail(argv));
    var command := prefix + "\"" + word + "\"";
    assert '"' !in binary && '"' !in profile ==> QuotedTail(command) == word by {
      if '"' !in binary && '"' !in profile {
        assert '"' !in prefix;
        QuotedTailOf(prefix, word);
      }
    }
    command
  }

  /**
    Everything before the first double quote is the binary, ` -P `, the
    profile and a space, for every binary and profile free of double quotes:
    the profile is placed unquoted, so a profile with a space reaches the
    shell as several words.
   */
  lemma LaunchCommandPrefix(binary: string, profile: string, argv: seq<string>)
    requires '"' !in binary && '"' !in profile
    ensures var command := LaunchCommand(binary, profile, argv);
      command[..FirstIndex('"', command)] == binary + " -P " + profile + " "
  {
    var prefix := binary + " -P " + profile + " ";
    var word := Join(" ", ArgTail(argv));
    var command := LaunchCommand(binary, profile, argv);
    assert command == prefix + "\"" + word + "\"";
    assert '"' !in prefix;
    assert command[|prefix|] == '"';
    assert forall k :: 0 <= k < |prefix| ==> command[k] == prefix[k];
    assert FirstIndex('"', command) == |prefix|;
    assert command[..|prefix|] == prefix;
  }

  /**
    The shell words before the quoted one are the binary, `-P` and the
    profile, in that order (the empty last piece is the space before the
    quote), whenever the binary and the profile hold no space or double quote.
   */
  lemma LaunchCommandWords(binary: string, profile: string, argv: seq<string>)
    requires '"' !in binary && '"' !in profile
    requires ' ' !in binary && ' ' !in profile
    ensures var command := LaunchCommand(binary, profile, argv);
      Split(' ', command[..FirstIndex('"', command)]) == [binary, "-P", profile, ""]
  {
    LaunchCommandPrefix(binary, profile, argv);
    var parts := [binary, "-P", profile, ""];
    assert Join(" ", parts[3..]) == "";
    assert Join(" ", parts[2..]) == profile + " " + "";
    assert Join(" ", parts[1..]) == "-P" + " " + (profile + " " + "");
    assert Join(" ", parts) == binary + " -P " + profile + " ";
    SplitJoin(' ', parts);
  }

  /**
    The quoted word carries every argument after the program name, in order:
    splitting it at the spaces gives the argument tail back whenever no input
    holds a double quote and no argument holds a space.
   */
  lemma LaunchCommandCarriesArguments(binary: string, profile: string, argv: seq<string>)
    requires '"' !in binary && '"' !in profile
    requires |argv| >= 2
    requires forall i :: 1 <= i < |argv| ==> ' ' !in argv[i]
    ensures Split(' ', QuotedTail(LaunchCommand(binary, profile, argv))) == argv[1..]
  {
    SplitJoin(' ', ArgTail(argv));
  }

  /** Number of occurrences of `c` in `s`. */
  function Occurrences(c: char, s: string): nat
  {
    if |s| == 0 then 0 else (if s[0] == c then 1 else 0) + Occurrences(c, s[1..])
  }

  /** Occurrences of `c` over all of `parts`. */
  function TotalOccurrences(c: char, parts: seq<string>): nat
  {
    if |parts| == 0 then 0 else Occurrences(c, parts[0]) + TotalOccurrences(c, parts[1..])
  }

  lemma {:induction false} OccurrencesConcat(c: char, a: string, b: string)
    ensures Occurrences(c, a + b) == Occurrences(c, a) + Occurrences(c, b)
  {
    if |a| == 0 {
      assert a + b == b;
    } else {
      assert (a + b)[1..] == a[1..] + b;
      OccurrencesConcat(c, a[1..], b);
    }
  }

  lemma {:induction false} OccurrencesZero(c: char, s: string)
    ensures Occurrences(c, s) == 0 <==> c !in s
  {
    if |s| > 0 {
      OccurrencesZero(c, s[1..]);
      assert forall x :: x in s <==> x == s[0] || x in s[1..];
    }
  }

  lemma {:induction false} TotalOccurrencesZero(c: char, parts: seq<string>)
    ensures TotalOccurrences(c, parts) == 0 <==> forall i :: 0 <= i < |parts| ==> c !in parts[i]
  {
    if |parts| > 0 {
      OccurrencesZero(c, parts[0]);
      TotalOccurrencesZero(c, parts[1..]);
      assert forall i :: 1 <= i < |parts| ==> parts[i] == parts[1..][i - 1];
    }
  }

  /** Joining with a separator free of `c` adds no occurrence of `c`. */
  lemma {:induction false} OccurrencesJoin(c: char, sep: string, parts: seq<string>)
    requires c !in sep
    ensures Occurrences(c, Join(sep, parts)) == TotalOccurrences(c, parts)
  {
    if |parts| == 1 {
      assert TotalOccurrences(c, parts[1..]) == 0;
    } else if |parts| > 1 {
      OccurrencesConcat(c, parts[0] + sep, Join(sep, parts[1..]));
      OccurrencesConcat(c, parts[0], sep);
      OccurrencesZero(c, sep);
      OccurrencesJoin(c, sep, parts[1..]);
    }
  }

  /**
    The launch command holds exactly two more double quotes than its inputs:
    an argument with a quote of its own breaks the quoting, because the source
    does not escape it.
   */
  lemma LaunchCommandQuotes(binary: string, profile: string, argv: seq<string>)
    ensures Occurrences('"', LaunchCommand(binary, profile, argv))
         == Occurrences('"', binary) + Occurrences('"', profile)
          + TotalOccurrences('"', ArgTail(argv)) + 2
  {
    var q := "\"";
    var j := Join(" ", ArgTail(argv));
    OccurrencesConcat('"', binary + " -P " + profile + " " + q + j, q);
    OccurrencesConcat('"', binary + " -P " + profile + " " + q, j);
    OccurrencesConcat('"', binary + " -P " + profile + " ", q);
    OccurrencesConcat('"', binary + " -P " + profile, " ");
    OccurrencesConcat('"', binary + " -P ", profile);
    OccurrencesConcat('"', binary, " -P ");
    OccurrencesJoin('"', " ", ArgTail(argv));
  }

  /** The argument string is quoted as one shell word exactly when no input
      carries a double quote of its own. */
  lemma LaunchCommandQuotedOnce(binary: string, profile: string, argv: seq<string>)
    ensures Occurrences('"', LaunchCommand(binary, profile, argv)) == 2
        <==> '"' !in binary && '"' !in profile
             && forall i :: 0 <= i < |ArgTail(argv)| ==> '"' !in ArgTail(argv)[i]
  {
    LaunchCommandQuotes(binary, profile, argv);
    OccurrencesZero('"', binary);
    OccurrencesZero('"', profile);
    TotalOccurrencesZero('"', ArgTail(argv));
  }

  /**
    `choose_profile_and_open`: the window's first line shows `get_url()`, so
    there is nothing to choose without a URL; otherwise the clicked button is
    launched when it names one of the candidates, and nothing happens when
    the window is closed.
   */
  function ChooseAndOpen(candidates: seq<string>, binary: string, env: Env): (r: Result<Launch, Error>)
    ensures r.Err? <==> |env.argv| < 2
    ensures r.Err? ==> r.error == MissingUrl
    ensures r.Ok? ==> (r.value.Launched? <==> env.event.Some? && env.event.value in candidates)
    ensures r.Ok? && r.value.Launched? ==>
      r.value.profile == env.event.value && r.value.command == LaunchCommand(binary, env.event.value, env.argv)
  {
    var url :- Url(env.argv);
    match env.event
    case Some(event) =>
      if event in candidates then Ok(Launched(event, LaunchCommand(binary, event, env.argv))) else Ok(NoLaunch)
    case None => Ok(NoLaunch)
  }

  /** The order of the candidates does not matter, only which they are; so
      the unspecified order of the profile list is harmless. */
  lemma ChooseDependsOnlyOnCandidateSet(c1: seq<string>, c2: seq<string>, binary: string, env: Env)
    requires forall p :: p in c1 <==> p in c2
    ensures ChooseAndOpen(c1, binary, env) == ChooseAndOpen(c2, binary, env)
  {
  }

  /** An empty candidate list never launches anything. */
  lemma EmptyCandidatesNeverLaunch(binary: string, env: Env)
    ensures ChooseAndOpen([], binary, env).Ok? ==> ChooseAndOpen([], binary, env).value == NoLaunch
  {
  }

  /** `Opener.open` for each opener variant. */
  function Open(opener: Opener, config: Config, env: Env): (r: Result<Launch, Error>)
    ensures opener.FixedProfile? ==>
      r == Ok(Launched(opener.profile, LaunchCommand(config.binaryPath, opener.profile, env.argv)))
    ensures opener.ChooseFromList? ==> r == ChooseAndOpen(opener.profiles, config.binaryPath, env)
    ensures opener.ChooseFromAll? ==>
      r == ChooseAndOpen(ProfileNames(env.readProfiles(config.configDir)), config.binaryPath, env)
    ensures opener.ChooseFromAll? && r.Ok? && r.value.Launched? ==>
      Declared(env.readProfiles(config.configDir), r.value.profile)
      && env.event == Some(r.value.profile)
      && r.value.command == LaunchCommand(config.binaryPath, r.value.profile, env.argv)
  {
    match opener
    case FixedProfile(profile) =>
      Ok(Launched(profile, LaunchCommand(config.binaryPath, profile, env.argv)))
    case ChooseFromList(profiles) =>
      ChooseAndOpen(profiles, config.binaryPath, env)
    case ChooseFromAll =>
      ChooseAndOpen(ProfileNames(env.readProfiles(config.configDir)), config.binaryPath, env)
  }

  /** The fixed opener launches its profile whatever the URL, the regex
      engine, the profile registry or the user do. */
  lemma FixedIgnoresEverythingElse(profile: string, config: Config, e1: Env, e2: Env)
    requires ArgTail(e1.argv) == ArgTail(e2.argv)
    ensures Open(FixedProfile(profile), config, e1) == Open(FixedProfile(profile), config, e2)
    ensures Open(FixedProfile(profile), config, e1).Ok?
    ensures Open(FixedProfile(profile), config, e1).value.Launched?
  {
  }

  /** Only the "ask any" opener reads the profile registry. */
  lemma OnlyChooseFromAllReadsRegistry(opener: Opener, config: Config, e1: Env, e2: Env)
    requires !opener.ChooseFromAll?
    requires e1.argv == e2.argv && e1.event == e2.event
    ensures Open(opener, config, e1) == Open(opener, config, e2)
  {
  }

  /** "Ask any" shows exactly the declared profiles, so it launches the clicked
      button exactly when the registry declares that name, and then launches
      that profile with its command. */
  lemma ChooseFromAllLaunchesDeclared(config: Config, env: Env)
    requires |env.argv| >= 2
    ensures Open(ChooseFromAll, config, env).Ok?
    ensures Open(ChooseFromAll, config, env).value.Launched?
        <==> env.event.Some? && Declared(env.readProfiles(config.configDir), env.event.value)
    ensures Open(ChooseFromAll, config, env).value.Launched? ==>
      Open(ChooseFromAll, config, env).value
        == Launched(env.event.value, LaunchCommand(config.binaryPath, env.event.value, env.argv))
  {
  }
}
