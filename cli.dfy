/**
 * The command line of cli.js: the option parser (parseArgs) and the default
 * output file name (generateOutputPath).
 *
 * `parseInt(next, 10)` is an oracle given as a parameter: it receives the
 * argument after the flag, None when there is none.
 */
module Cli {
  import opened Wrappers
  import opened Strings
  import Recorder

  /** The parsed options; None stands for both `null` and `undefined`. */
  datatype Options = Options(
    url: Option<string>,
    scenarioName: Option<string>,
    output: Option<string>,
    duration: int,
    includePatterns: seq<string>,
    excludePatterns: seq<string>,
    headless: bool,
    bodySizeLimit: int)

  /**
   * How parseArgs ends: with options; with `--help`/`-h`, which prints the
   * help and exits; or with the TypeError thrown by `next.split(',')` when
   * `--include`/`--exclude` is the last argument.
   */
  datatype ArgsOutcome =
    | Parsed(options: Options)
    | HelpRequested
    | ListValueMissing(flag: string)

  /** One argument's effect: new options and whether it took the next argument, or the end of parsing. */
  datatype FlagEffect =
    | Continue(options: Options, takesValue: bool)
    | Halt(outcome: ArgsOutcome)

  /** The options before any argument is read (cli.js:30-39). */
  function Defaults(): Options {
    Options(None, None, None, 60, Recorder.DefaultIncludePatterns, Recorder.DefaultExcludePatterns, false, 10000)
  }

  /** `next.split(',').map(p => p.trim())`: pattern `k` is the `k`-th comma-separated piece, trimmed. */
  function SplitList(value: string): (patterns: seq<string>)
    ensures |patterns| == |Split(value, ',')| >= 1
    ensures forall k :: 0 <= k < |patterns| ==> patterns[k] == Trim(Split(value, ',')[k])
    ensures forall k :: 0 <= k < |patterns| ==> ',' !in patterns[k]
    ensures forall k :: 0 <= k < |patterns| && patterns[k] != [] ==>
              !IsWhiteSpace(patterns[k][0]) && !IsWhiteSpace(patterns[k][|patterns[k]| - 1])
  {
    var parts := Split(value, ',');
    var patterns := seq(|parts|, k requires 0 <= k < |parts| => Trim(parts[k]));
    assert forall k :: 0 <= k < |patterns| ==> ',' !in patterns[k] by {
      forall k | 0 <= k < |patterns| ensures ',' !in patterns[k] {
        TrimDropsOnly(parts[k], ',');
      }
    }
    patterns
  }

  /** The switch of parseArgs for one argument `arg` followed by `next` (cli.js:45-87). */
  function ApplyFlag(arg: string, next: Option<string>, o: Options, parseInt: Option<string> -> int): FlagEffect {
    if arg == "--url" || arg == "-u" then Continue(o.(url := next), true)
    else if arg == "--scenario" || arg == "-s" then Continue(o.(scenarioName := next), true)
    else if arg == "--output" || arg == "-o" then Continue(o.(output := next), true)
    else if arg == "--duration" || arg == "-d" then Continue(o.(duration := parseInt(next)), true)
    else if arg == "--include" || arg == "-i" then
      (if next.None? then Halt(ListValueMissing(arg)) else Continue(o.(includePatterns := SplitList(next.value)), true))
    else if arg == "--exclude" || arg == "-e" then
      (if next.None? then Halt(ListValueMissing(arg)) else Continue(o.(excludePatterns := SplitList(next.value)), true))
    else if arg == "--headless" then Continue(o.(headless := true), false)
    else if arg == "--body-limit" then Continue(o.(bodySizeLimit := parseInt(next)), true)
    else if arg == "--help" || arg == "-h" then Halt(HelpRequested)
    else Continue(o, false)
  }

  /** `args[i + 1]`, None past the end. */
  function NextArg(args: seq<string>, i: nat): Option<string> {
    if i + 1 < |args| then Some(args[i + 1]) else None
  }

  /** The outcome of parsing `args` from index `i` with the options `o` built so far. */
  function ParseFrom(args: seq<string>, i: nat, o: Options, parseInt: Option<string> -> int): ArgsOutcome
    decreases |args| - i
  {
    if i >= |args| then Parsed(o)
    else
      match ApplyFlag(args[i], NextArg(args, i), o, parseInt)
      case Halt(outcome) => outcome
      case Continue(o', takesValue) => ParseFrom(args, if takesValue then i + 2 else i + 1, o', parseInt)
  }

  /**
   * `parseArgs(args)`: walks the arguments with an index that skips the value
   * of a flag that takes one (cli.js:29-91).
   */
  method ParseArgs(args: seq<string>, parseInt: Option<string> -> int) returns (outcome: ArgsOutcome)
    ensures outcome == ParseFrom(args, 0, Defaults(), parseInt)
  {
    var options := Defaults();
    var i := 0;
    while i < |args|
      invariant i <= |args| + 1
      invariant ParseFrom(args, i, options, parseInt) == ParseFrom(args, 0, Defaults(), parseInt)
    {
      match ApplyFlag(args[i], NextArg(args, i), options, parseInt) {
        case Halt(end) =>
          return end;
        case Continue(updated, takesValue) =>
          options := updated;
          if takesValue {
            i := i + 1;
          }
      }
      i := i + 1;
    }
    outcome := Parsed(options);
  }

  /** Without arguments every option has its default. */
  lemma NoArgumentsGiveDefaults(parseInt: Option<string> -> int)
    ensures ParseFrom([], 0, Defaults(), parseInt)
            == Parsed(Options(None, None, None, 60, ["/api/"],
                              [".css", ".js", ".woff", ".woff2", ".ttf", ".ico", ".png", ".jpg", ".jpeg", ".gif", ".svg"],
                              false, 10000))
  {
  }

  /**
   * Value flags set their option to the next argument and skip it; the list
   * flags split it on commas and trim the pieces; `--headless` takes no value.
   */
  lemma FlagsAtPosition(args: seq<string>, i: nat, o: Options, parseInt: Option<string> -> int)
    requires i < |args|
    ensures args[i] in {"--url", "-u"} ==>
              ParseFrom(args, i, o, parseInt) == ParseFrom(args, i + 2, o.(url := NextArg(args, i)), parseInt)
    ensures args[i] in {"--scenario", "-s"} ==>
              ParseFrom(args, i, o, parseInt) == ParseFrom(args, i + 2, o.(scenarioName := NextArg(args, i)), parseInt)
    ensures args[i] in {"--output", "-o"} ==>
              ParseFrom(args, i, o, parseInt) == ParseFrom(args, i + 2, o.(output := NextArg(args, i)), parseInt)
    ensures args[i] in {"--include", "-i"} && i + 1 < |args| ==>
              ParseFrom(args, i, o, parseInt) == ParseFrom(args, i + 2, o.(includePatterns := SplitList(args[i + 1])), parseInt)
    ensures args[i] in {"--exclude", "-e"} && i + 1 < |args| ==>
              ParseFrom(args, i, o, parseInt) == ParseFrom(args, i + 2, o.(excludePatterns := SplitList(args[i + 1])), parseInt)
    ensures args[i] in {"--include", "-i", "--exclude", "-e"} && i + 1 == |args| ==>
              ParseFrom(args, i, o, parseInt) == ListValueMissing(args[i])
    ensures args[i] == "--headless" ==>
              ParseFrom(args, i, o, parseInt) == ParseFrom(args, i + 1, o.(headless := true), parseInt)
  {
  }

  /** The arguments parseArgs reacts to. */
  predicate IsKnownFlag(arg: string) {
    arg in {"--url", "-u", "--scenario", "-s", "--output", "-o", "--duration", "-d",
            "--include", "-i", "--exclude", "-e", "--headless", "--body-limit", "--help", "-h"}
  }

  /** Arguments the switch does not know leave the options as they are. */
  lemma {:induction false} UnknownArgumentsIgnored(args: seq<string>, i: nat, o: Options, parseInt: Option<string> -> int)
    requires forall k :: i <= k < |args| ==> !IsKnownFlag(args[k])
    ensures ParseFrom(args, i, o, parseInt) == Parsed(o)
    decreases |args| - i
  {
    if i < |args| {
      assert !IsKnownFlag(args[i]);
      UnknownArgumentsIgnored(args, i + 1, o, parseInt);
    }
  }

  /** The options a flag with a value sets. */
  datatype Field = UrlField | ScenarioField | OutputField | DurationField | IncludeField | ExcludeField | BodyLimitField

  /** The value of one option, whichever its type. */
  datatype FieldValue = Text(text: Option<string>) | Number(number: int) | Patterns(patterns: seq<string>)

  /** The spellings of the flag that sets `f`. */
  function FlagsOf(f: Field): set<string> {
    match f
    case UrlField => {"--url", "-u"}
    case ScenarioField => {"--scenario", "-s"}
    case OutputField => {"--output", "-o"}
    case DurationField => {"--duration", "-d"}
    case IncludeField => {"--include", "-i"}
    case ExcludeField => {"--exclude", "-e"}
    case BodyLimitField => {"--body-limit"}
  }

  function Get(o: Options, f: Field): FieldValue {
    match f
    case UrlField => Text(o.url)
    case ScenarioField => Text(o.scenarioName)
    case OutputField => Text(o.output)
    case DurationField => Number(o.duration)
    case IncludeField => Patterns(o.includePatterns)
    case ExcludeField => Patterns(o.excludePatterns)
    case BodyLimitField => Number(o.bodySizeLimit)
  }

  /**
   * The value a flag for `f` followed by `next` gives its option. A list flag
   * without a value halts parsing, so its `None` case is never stored.
   */
  function ValueFor(f: Field, next: Option<string>, parseInt: Option<string> -> int): FieldValue {
    match f
    case UrlField => Text(next)
    case ScenarioField => Text(next)
    case OutputField => Text(next)
    case DurationField => Number(parseInt(next))
    case IncludeField => Patterns(if next.Some? then SplitList(next.value) else [])
    case ExcludeField => Patterns(if next.Some? then SplitList(next.value) else [])
    case BodyLimitField => Number(parseInt(next))
  }

  /** A flag for `f` takes the next argument and sets `f` from it. */
  lemma ApplyFlagSetsField(f: Field, arg: string, next: Option<string>, o: Options, parseInt: Option<string> -> int)
    requires arg in FlagsOf(f)
    ensures var effect := ApplyFlag(arg, next, o, parseInt);
            && (effect.Continue? ==> effect.takesValue && Get(effect.options, f) == ValueFor(f, next, parseInt))
            && (effect.Halt? ==> next.None? && effect.outcome == ListValueMissing(arg))
  {
    var effect := ApplyFlag(arg, next, o, parseInt);
    match f
    case UrlField => assert effect == Continue(o.(url := next), true);
    case ScenarioField => assert effect == Continue(o.(scenarioName := next), true);
    case OutputField => assert effect == Continue(o.(output := next), true);
    case DurationField => assert effect == Continue(o.(duration := parseInt(next)), true);
    case IncludeField =>
      assert effect.Continue? ==> effect == Continue(o.(includePatterns := SplitList(next.value)), true);
    case ExcludeField =>
      assert effect.Continue? ==> effect == Continue(o.(excludePatterns := SplitList(next.value)), true);
    case BodyLimitField => assert effect == Continue(o.(bodySizeLimit := parseInt(next)), true);
  }

  /** Any other argument leaves `f` as it is. */
  lemma ApplyFlagKeepsField(f: Field, arg: string, next: Option<string>, o: Options, parseInt: Option<string> -> int)
    requires arg !in FlagsOf(f)
    ensures var effect := ApplyFlag(arg, next, o, parseInt);
            effect.Continue? ==> Get(effect.options, f) == Get(o, f)
  {
  }

  /** The flags that take the next argument as their value. */
  predicate TakesValue(arg: string) {
    arg in {"--url", "-u", "--scenario", "-s", "--output", "-o", "--duration", "-d",
            "--include", "-i", "--exclude", "-e", "--body-limit"}
  }

  /** Whether an argument takes the next one depends on the argument alone. */
  lemma ApplyFlagStride(arg: string, next: Option<string>, o: Options, parseInt: Option<string> -> int)
    ensures var effect := ApplyFlag(arg, next, o, parseInt);
            effect.Continue? ==> effect.takesValue == TakesValue(arg)
  {
  }

  /**
   * The positions from `j` on that parsing reads as flags: each one is
   * followed by the next, or by the one after when it takes a value.
   */
  function ReadPositions(args: seq<string>, j: nat): (positions: set<nat>)
    ensures forall k | k in positions :: j <= k < |args|
    ensures j < |args| ==> j in positions
    decreases |args| - j
  {
    if j >= |args| then {} else {j} + ReadPositions(args, if TakesValue(args[j]) then j + 2 else j + 1)
  }

  /** Without a flag for `f` read from `i` on, whatever parsing finds keeps the value of `f` it started with. */
  lemma {:induction false} FieldKeptWithoutFlag(f: Field, args: seq<string>, i: nat, o: Options, parseInt: Option<string> -> int)
    requires forall k | k in ReadPositions(args, i) :: args[k] !in FlagsOf(f)
    ensures ParseFrom(args, i, o, parseInt).Parsed? ==> Get(ParseFrom(args, i, o, parseInt).options, f) == Get(o, f)
    decreases |args| - i
  {
    if i < |args| {
      var effect := ApplyFlag(args[i], NextArg(args, i), o, parseInt);
      var j := if TakesValue(args[i]) then i + 2 else i + 1;
      assert ReadPositions(args, i) == {i} + ReadPositions(args, j);
      ApplyFlagKeepsField(f, args[i], NextArg(args, i), o, parseInt);
      ApplyFlagStride(args[i], NextArg(args, i), o, parseInt);
      if effect.Continue? {
        assert ParseFrom(args, i, o, parseInt) == ParseFrom(args, j, effect.options, parseInt);
        FieldKeptWithoutFlag(f, args, j, effect.options, parseInt);
      }
    }
  }

  /**
   * The last flag for `f` read as a flag decides `f`: a later occurrence of
   * `--url`, `--scenario`, `--output`, `--duration`, `--include`, `--exclude`
   * or `--body-limit` overrides an earlier one, and one consumed as another
   * flag's value does not.
   */
  lemma LastFlagWins(f: Field, args: seq<string>, i: nat, o: Options, parseInt: Option<string> -> int)
    requires i < |args| && args[i] in FlagsOf(f)
    requires forall k | k in ReadPositions(args, i + 2) :: args[k] !in FlagsOf(f)
    ensures ParseFrom(args, i, o, parseInt).Parsed?
            ==> Get(ParseFrom(args, i, o, parseInt).options, f) == ValueFor(f, NextArg(args, i), parseInt)
  {
    var effect := ApplyFlag(args[i], NextArg(args, i), o, parseInt);
    ApplyFlagSetsField(f, args[i], NextArg(args, i), o, parseInt);
    if effect.Continue? {
      assert ParseFrom(args, i, o, parseInt) == ParseFrom(args, i + 2, effect.options, parseInt);
      FieldKeptWithoutFlag(f, args, i + 2, effect.options, parseInt);
    }
  }

  /** `--url a -s --url`: the second `--url` is the scenario name, so the URL stays `a`. */
  lemma ConsumedFlagExample(o: Options, parseInt: Option<string> -> int)
    ensures var outcome := ParseFrom(["--url", "a", "-s", "--url"], 0, o, parseInt);
            outcome.Parsed? && outcome.options.url == Some("a") && outcome.options.scenarioName == Some("--url")
  {
    var args := ["--url", "a", "-s", "--url"];
    assert TakesValue(args[2]);
    assert ReadPositions(args, 2) == {2};
    assert args[2] !in FlagsOf(UrlField);
    LastFlagWins(UrlField, args, 0, o, parseInt);
    LastFlagWins(ScenarioField, args, 2, o.(url := Some("a")), parseInt);
  }

  /** Characters kept in a file name: `[a-zA-Z0-9_-]`, Hiragana, Katakana and the CJK Unified Ideographs block. */
  predicate IsSafeChar(c: char) {
    || ('a' <= c <= 'z') || ('A' <= c <= 'Z') || ('0' <= c <= '9') || c == '_' || c == '-'
    || ('\U{3040}' <= c <= '\U{309F}') || ('\U{30A0}' <= c <= '\U{30FF}') || ('\U{4E00}' <= c <= '\U{9FFF}')
  }

  /** No two consecutive underscores. */
  predicate NoDoubleUnderscore(s: string) {
    forall i :: 0 <= i < |s| - 1 ==> !(s[i] == '_' && s[i + 1] == '_')
  }

  /** The first replace: every character outside the safe set becomes `_`. */
  function ReplaceUnsafe(s: string): (r: string)
    ensures |r| == |s|
    ensures forall i :: 0 <= i < |r| ==> IsSafeChar(r[i])
    ensures forall i :: 0 <= i < |r| && IsSafeChar(s[i]) ==> r[i] == s[i]
    ensures forall i :: 0 <= i < |r| && !IsSafeChar(s[i]) ==> r[i] == '_'
  {
    seq(|s|, i requires 0 <= i < |s| => if IsSafeChar(s[i]) then s[i] else '_')
  }

  /** The characters of `s` other than `_`, in order. */
  function WithoutUnderscores(s: string): string
    decreases |s|
  {
    if s == [] then [] else (if s[0] == '_' then [] else [s[0]]) + WithoutUnderscores(s[1..])
  }

  /** The second replace, `/_+/g` to `_`: a run of underscores shrinks to one and nothing else changes. */
  function CollapseUnderscores(s: string): (r: string)
    ensures NoDoubleUnderscore(r)
    ensures |r| <= |s|
    ensures s != [] ==> r != [] && r[0] == s[0]
    ensures forall i :: 0 <= i < |r| ==> r[i] in s
    ensures WithoutUnderscores(r) == WithoutUnderscores(s)
    decreases |s|
  {
    if |s| <= 1 then s
    else
      var rest := CollapseUnderscores(s[1..]);
      if s[0] == '_' && s[1] == '_' then rest
      else
        var r := [s[0]] + rest;
        assert r[1..] == rest;
        assert forall i :: 1 <= i < |r| ==> r[i] in s by {
          forall i | 1 <= i < |r| ensures r[i] in s {
            assert r[i] == rest[i - 1];
            assert rest[i - 1] in s[1..];
          }
        }
        r
  }

  /** `s[i]` is an underscore directly after another one. */
  predicate RepeatsUnderscore(s: string, i: nat)
    requires i < |s|
  {
    i > 0 && s[i] == '_' && s[i - 1] == '_'
  }

  /**
   * The characters of `s` from index `i` on, leaving out every `_` that
   * directly follows another `_`: each run of underscores kept as its first.
   */
  function KeptFrom(s: string, i: nat): string
    requires i <= |s|
    decreases |s| - i
  {
    if i == |s| then [] else (if RepeatsUnderscore(s, i) then [] else [s[i]]) + KeptFrom(s, i + 1)
  }

  /** Collapsing a suffix keeps its first character and then filters the rest. */
  lemma {:induction false} CollapseSuffix(s: string, i: nat)
    requires i < |s|
    ensures CollapseUnderscores(s[i..]) == [s[i]] + KeptFrom(s, i + 1)
    decreases |s| - i
  {
    var t := s[i..];
    if i == |s| - 1 {
      assert t == [s[i]];
    } else {
      assert t[1..] == s[i + 1..];
      CollapseSuffix(s, i + 1);
      if !RepeatsUnderscore(s, i + 1) {
        assert [s[i]] + KeptFrom(s, i + 1) == [s[i]] + ([s[i + 1]] + KeptFrom(s, i + 2));
      }
    }
  }

  /** `/_+/g` to `_` is the filter that drops each underscore following another one. */
  lemma CollapseIsFilter(s: string)
    ensures CollapseUnderscores(s) == KeptFrom(s, 0)
  {
    if s != [] {
      CollapseSuffix(s, 0);
      assert s[0..] == s;
    }
  }

  /** A string with no double underscore is left as it is. */
  lemma {:induction false} CollapseKeepsClean(s: string)
    requires NoDoubleUnderscore(s)
    ensures CollapseUnderscores(s) == s
    decreases |s|
  {
    if |s| > 1 {
      assert NoDoubleUnderscore(s[1..]) by {
        forall i | 0 <= i < |s[1..]| - 1 ensures !(s[1..][i] == '_' && s[1..][i + 1] == '_') {
          assert s[1..][i] == s[i + 1] && s[1..][i + 1] == s[i + 2];
        }
      }
      CollapseKeepsClean(s[1..]);
      assert !(s[0] == '_' && s[1] == '_');
    }
  }

  /** The file-name form of a scenario name (cli.js:126-128). */
  function SafeName(name: string): (r: string)
    ensures forall i :: 0 <= i < |r| ==> IsSafeChar(r[i])
    ensures NoDoubleUnderscore(r)
    ensures WithoutUnderscores(r) == WithoutUnderscores(ReplaceUnsafe(name))
    ensures r == KeptFrom(ReplaceUnsafe(name), 0)
  {
    CollapseIsFilter(ReplaceUnsafe(name));
    CollapseUnderscores(ReplaceUnsafe(name))
  }

  /** A space becomes `_` and a run of them a single `_`: `a  b` is stored as `a_b`. */
  lemma SafeNameExample()
    ensures SafeName("a b") == "a_b"
    ensures SafeName("a  b") == "a_b"
  {
    assert ReplaceUnsafe("a b") == "a_b";
    assert ReplaceUnsafe("a  b") == "a__b";
    assert NoDoubleUnderscore("a_b");
    SafeNameKeepsSafeNames("a_b");
  }

  /** Making a name safe twice is making it safe once. */
  lemma SafeNameIdempotent(name: string)
    ensures SafeName(SafeName(name)) == SafeName(name)
  {
    var r := SafeName(name);
    assert ReplaceUnsafe(r) == r;
    CollapseKeepsClean(r);
  }

  /** A name made only of safe characters, without double underscores, is kept as it is. */
  lemma SafeNameKeepsSafeNames(name: string)
    requires forall i :: 0 <= i < |name| ==> IsSafeChar(name[i])
    requires NoDoubleUnderscore(name)
    ensures SafeName(name) == name
  {
    assert ReplaceUnsafe(name) == name;
    CollapseKeepsClean(name);
  }

  /**
   * `generateOutputPath(scenarioName)` with the compact timestamp given:
   * `timestamp_safeName.json` (cli.js:118-131).
   */
  function GenerateOutputPath(timestamp: string, scenarioName: string): (path: string)
    ensures path == timestamp + "_" + SafeName(scenarioName) + ".json"
    ensures |path| == |timestamp| + 1 + |SafeName(scenarioName)| + 5
    ensures StartsWith(path, timestamp + "_") && EndsWith(path, ".json")
    ensures var name := path[|timestamp| + 1..|path| - 5];
            (forall i :: 0 <= i < |name| ==> IsSafeChar(name[i])) && NoDoubleUnderscore(name)
  {
    var safe := SafeName(scenarioName);
    var path := timestamp + "_" + safe + ".json";
    assert path[..|timestamp| + 1] == timestamp + "_";
    assert path[|path| - 5..] == ".json";
    assert path[|timestamp| + 1..|path| - 5] == safe;
    path
  }
}
