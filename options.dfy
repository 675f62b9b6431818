/** The command-line loop at the start of `main` in droidvncserver.cpp: which
    options set which configuration value, which are fatal, and the rotation
    policy (`allowedRotation`, `forcedRotation`) it hands to the pipeline. */
module Options {
  import opened ImageRotation

  /** A C string: it ends at the first NUL, so it holds none. */
  type CString = s: string | '\0' !in s

  /** The configurables the loop sets, with their initial values in `Defaults`.
      `reverse` keeps the argument of `-R` as given. */
  datatype Config = Config(
    width: int, height: int, port: int,
    password: string, passwordFile: string, reverse: seq<CString>,
    mask: Mask, rotate180: bool, scaling: int, skipFrames: bool, downgrade: bool)

  const Defaults := Config(0, 0, 5901, "", "", [], ROT_ALL, false, 100, false, false)

  /** Why the loop stops the process with a diagnostic. */
  datatype Failure =
    | MissingValue(option: char)        // "No ... provided"
    | InvalidScaling(value: int)
    | UnknownRotation(value: int)
    | UnknownOrientation(word: string)
    | Conflict(option: char)            // "Cannot specify -r and -o together" and its mirror

  datatype Outcome = Run(config: Config) | Usage | Version | Fatal(failure: Failure)

  /** `forcedRotation`: the served orientation is restricted. */
  predicate Forced(c: Config) {
    c.mask != ROT_ALL
  }

  predicate IsSpace(ch: char) {
    ch == ' ' || ch == '\t' || ch == '\n' || ch == '\U{b}' || ch == '\U{c}' || ch == '\r'
  }

  predicate IsDigit(ch: char) {
    '0' <= ch <= '9'
  }

  /** The value of the decimal digits at the start of `s`, read after `acc`. */
  function DigitsValue(s: string, acc: int): int
    decreases |s|
  {
    if s != [] && IsDigit(s[0]) then DigitsValue(s[1..], 10 * acc + (s[0] as int - '0' as int)) else acc
  }

  /** The C library's `atoi`: leading white space, an optional sign, then as
      many decimal digits as follow; 0 when there are none. */
  function Atoi(s: string): int
    decreases |s|
  {
    if s != [] && IsSpace(s[0]) then Atoi(s[1..])
    else if s != [] && s[0] == '-' then -DigitsValue(s[1..], 0)
    else if s != [] && s[0] == '+' then DigitsValue(s[1..], 0)
    else DigitsValue(s, 0)
  }

  /** `strncpy` into a zero-filled buffer of `n + 1` characters: at most the first `n` survive. */
  function Truncate(s: string, n: nat): (t: string)
    ensures |t| <= n && t <= s
    ensures |s| <= n ==> t == s
    ensures |s| > n ==> t == s[..n]
  {
    if |s| <= n then s else s[..n]
  }

  /** What one pass of the loop body does with the argument at `i`. */
  datatype Step = Next(index: nat, config: Config) | Exit(outcome: Outcome)

  /** What an option's value does to the configuration: set it, or stop the process. */
  datatype Setting = Set(config: Config) | Refused(failure: Failure)

  /** `-d`, `-z` and `-f` switch on their flag. */
  function Flag(letter: char, c: Config): Config
    requires letter == 'd' || letter == 'z' || letter == 'f'
  {
    if letter == 'd' then c.(downgrade := true)
    else if letter == 'z' then c.(rotate180 := true)
    else c.(skipFrames := true)
  }

  /** The options `-w -h -p -e -P -s -R` applied to their value. */
  function Valued(letter: char, value: CString, c: Config): Setting
    requires letter in "whpePsR"
  {
    match letter
    case 'w' => Set(c.(width := Atoi(value)))
    case 'h' => Set(c.(height := Atoi(value)))
    case 'p' => Set(c.(password := Truncate(value, 255)))
    case 'e' => Set(c.(passwordFile := Truncate(value, 1023), password := ""))
    case 'P' => Set(c.(port := Atoi(value)))
    case 's' =>
      var r := Atoi(value);
      if 1 <= r <= 150 then Set(c.(scaling := r)) else Refused(InvalidScaling(r))
    case 'R' => Set(c.(reverse := [value]))
  }

  /** `-r` (a rotation in degrees, 360 meaning 0) and `-o` (an orientation word)
      applied to their value: the mask they select, or why they refuse it. */
  function Policy(letter: char, value: CString, c: Config): Setting
    requires letter == 'r' || letter == 'o'
  {
    if letter == 'r' then
      var r := Atoi(value);
      if r == 90 then Set(c.(mask := ROT_90))
      else if r == 180 then Set(c.(mask := ROT_180))
      else if r == 270 then Set(c.(mask := ROT_270))
      else if r == 360 || r == 0 then Set(c.(mask := ROT_0))
      else Refused(UnknownRotation(r))
    else if value == "portrait" then Set(c.(mask := ROT_0 | ROT_180))
    else if value == "landscape" then Set(c.(mask := ROT_90 | ROT_270))
    else Refused(UnknownOrientation(value))
  }

  function Then(s: Setting, next: nat): Step {
    match s
    case Set(c) => Next(next, c)
    case Refused(f) => Exit(Fatal(f))
  }

  /** The loop body at argument `i`. An argument not starting with `-`, a lone
      `-` and an unknown letter are skipped. `-d`, `-z` and `-f` step over the
      argument after them as well. `-r` and `-o` first refuse a policy already
      restricted; then every option with a value fails when there is none. */
  function StepAt(argv: seq<CString>, i: nat, c: Config): (r: Step)
    requires i < |argv|
    ensures r.Next? ==> i < r.index <= i + 2
  {
    var a := argv[i];
    if |a| < 2 || a[0] != '-' then Next(i + 1, c)
    else
      var letter := a[1];
      if letter == '?' then Exit(Usage)
      else if letter == 'v' then Exit(Version)
      else if letter == 'd' || letter == 'z' || letter == 'f' then Next(i + 2, Flag(letter, c))
      else if letter == 'r' || letter == 'o' then
        if c.mask != ROT_ALL then Exit(Fatal(Conflict(letter)))
        else if i + 1 >= |argv| then Exit(Fatal(MissingValue(letter)))
        else Then(Policy(letter, argv[i + 1], c), i + 2)
      else if letter in "whpePsR" then
        if i + 1 >= |argv| then Exit(Fatal(MissingValue(letter)))
        else Then(Valued(letter, argv[i + 1], c), i + 2)
      else Next(i + 1, c)
  }

  /** The outcome of running the loop from argument `i` with configuration `c`. */
  function Parse(argv: seq<CString>, i: nat, c: Config): (r: Outcome)
    ensures r.Run? && Forced(c) ==> r.config.mask == c.mask
    decreases |argv| - i
  {
    if i >= |argv| then Run(c)
    else
      match StepAt(argv, i, c)
      case Exit(out) => out
      case Next(j, c') => Parse(argv, j, c')
  }

  /** The loop of `main`, from `argv[1]` on. */
  method ParseArguments(argv: seq<CString>) returns (out: Outcome)
    ensures out == Parse(argv, 1, Defaults)
  {
    var c := Defaults;
    var i := 1;
    while i < |argv|
      invariant Parse(argv, i, c) == Parse(argv, 1, Defaults)
      decreases |argv| - i
    {
      match StepAt(argv, i, c)
      case Exit(o) =>
        return o;
      case Next(j, c') =>
        i, c := j, c';
    }
    return Run(c);
  }

  /** The masks the loop can produce: every orientation, one of them, or an
      opposite pair. None is empty. */
  predicate ReachableMask(m: Mask) {
    m == ROT_ALL || m == ROT_0 || m == ROT_90 || m == ROT_180 || m == ROT_270
    || m == ROT_0 | ROT_180 || m == ROT_90 | ROT_270
  }

  /** What holds of every configuration the loop hands on. */
  predicate WellFormed(c: Config) {
    ReachableMask(c.mask) && 1 <= c.scaling <= 150 && |c.password| <= 255 && |c.passwordFile| <= 1023
  }

  lemma ValuedKeepsWellFormed(letter: char, value: CString, c: Config)
    requires letter in "whpePsR" && WellFormed(c)
    ensures Valued(letter, value, c).Set? ==> WellFormed(Valued(letter, value, c).config)
  {
  }

  lemma PolicyKeepsWellFormed(letter: char, value: CString, c: Config)
    requires (letter == 'r' || letter == 'o') && WellFormed(c)
    ensures Policy(letter, value, c).Set? ==> WellFormed(Policy(letter, value, c).config)
  {
  }

  /** One step keeps a well-formed configuration well formed. */
  lemma StepKeepsWellFormed(argv: seq<CString>, i: nat, c: Config)
    requires i < |argv| && WellFormed(c)
    ensures StepAt(argv, i, c).Next? ==> WellFormed(StepAt(argv, i, c).config)
  {
    var a := argv[i];
    if |a| >= 2 && a[0] == '-' && i + 1 < |argv| {
      if a[1] == 'r' || a[1] == 'o' {
        PolicyKeepsWellFormed(a[1], argv[i + 1], c);
      } else if a[1] in "whpePsR" {
        ValuedKeepsWellFormed(a[1], argv[i + 1], c);
      }
    }
  }

  /** The loop only ever hands on a reachable, non-empty rotation mask, a scale
      between 1 and 150 percent and passwords that fit their buffers. */
  lemma {:induction false} ParseKeepsWellFormed(argv: seq<CString>, i: nat, c: Config)
    requires WellFormed(c)
    ensures Parse(argv, i, c).Run? ==> WellFormed(Parse(argv, i, c).config) && Parse(argv, i, c).config.mask != 0
    decreases |argv| - i
  {
    if i < |argv| {
      StepKeepsWellFormed(argv, i, c);
      match StepAt(argv, i, c)
      case Exit(_) =>
      case Next(j, c') => ParseKeepsWellFormed(argv, j, c');
    }
  }

  lemma DefaultsWellFormed()
    ensures WellFormed(Defaults) && !Forced(Defaults)
  {
  }

  /** `-d`, `-z` and `-f` take no value yet skip the next argument, whatever it is. */
  lemma FlagSwallowsNext(argv: seq<CString>, i: nat, c: Config)
    requires i < |argv| && |argv[i]| >= 2 && argv[i][0] == '-'
    ensures argv[i][1] == 'd' ==> Parse(argv, i, c) == Parse(argv, i + 2, c.(downgrade := true))
    ensures argv[i][1] == 'z' ==> Parse(argv, i, c) == Parse(argv, i + 2, c.(rotate180 := true))
    ensures argv[i][1] == 'f' ==> Parse(argv, i, c) == Parse(argv, i + 2, c.(skipFrames := true))
  {
  }

  /** `-r` with a rotation in degrees allows exactly that orientation; 360
      counts as 0; any other value is fatal. */
  lemma RotationOption(argv: seq<CString>, i: nat, c: Config)
    requires i + 1 < |argv| && |argv[i]| >= 2 && argv[i][0] == '-' && argv[i][1] == 'r'
    requires c.mask == ROT_ALL
    ensures var v := Atoi(argv[i + 1]);
            && (v == 0 || v == 90 || v == 180 || v == 270 ==>
                  Parse(argv, i, c) == Parse(argv, i + 2, c.(mask := 1 << Turns(v))))
            && (v == 360 ==> Parse(argv, i, c) == Parse(argv, i + 2, c.(mask := ROT_0)))
            && (v != 0 && v != 90 && v != 180 && v != 270 && v != 360 ==>
                  Parse(argv, i, c) == Fatal(UnknownRotation(v)))
  {
  }

  /** `-o` allows the two orientations of its word, matched exactly. */
  lemma OrientationOption(argv: seq<CString>, i: nat, c: Config)
    requires i + 1 < |argv| && |argv[i]| >= 2 && argv[i][0] == '-' && argv[i][1] == 'o'
    requires c.mask == ROT_ALL
    ensures argv[i + 1] == "portrait" ==> Parse(argv, i, c) == Parse(argv, i + 2, c.(mask := ROT_0 | ROT_180))
    ensures argv[i + 1] == "landscape" ==> Parse(argv, i, c) == Parse(argv, i + 2, c.(mask := ROT_90 | ROT_270))
    ensures argv[i + 1] != "portrait" && argv[i + 1] != "landscape" ==>
              Parse(argv, i, c) == Fatal(UnknownOrientation(argv[i + 1]))
  {
  }

  /** Once the policy is restricted, a further `-r` or `-o` is fatal before its value is read. */
  lemma SecondPolicyFatal(argv: seq<CString>, i: nat, c: Config)
    requires i < |argv| && |argv[i]| >= 2 && argv[i][0] == '-' && (argv[i][1] == 'r' || argv[i][1] == 'o')
    requires Forced(c)
    ensures Parse(argv, i, c) == Fatal(Conflict(argv[i][1]))
  {
  }

  /** `-s` keeps a scale of 1 to 150 percent and stops on anything else. */
  lemma ScalingOption(argv: seq<CString>, i: nat, c: Config)
    requires i + 1 < |argv| && |argv[i]| >= 2 && argv[i][0] == '-' && argv[i][1] == 's'
    ensures var v := Atoi(argv[i + 1]);
            && (1 <= v <= 150 ==> Parse(argv, i, c) == Parse(argv, i + 2, c.(scaling := v)))
            && (!(1 <= v <= 150) ==> Parse(argv, i, c) == Fatal(InvalidScaling(v)))
  {
  }

  lemma AtoiExamples()
    ensures Atoi("90") == 90 && Atoi(" -12x") == -12 && Atoi("+7") == 7 && Atoi("abc") == 0
  {
  }

  /** `-f` swallows `-s`, whose value is then skipped as a plain word: the scale stays at 100. */
  lemma FlagSwallowExample()
    ensures Parse(["vnc", "-r", "90", "-f", "-s", "50"], 1, Defaults)
         == Run(Defaults.(mask := ROT_90, skipFrames := true))
  {
    var argv: seq<CString> := ["vnc", "-r", "90", "-f", "-s", "50"];
    assert Atoi(argv[2]) == 90;
  }

  /** `-o` then `-r` is refused; `-r 360` means upright. */
  lemma PolicyExamples()
    ensures Parse(["vnc", "-o", "portrait", "-r", "0"], 1, Defaults) == Fatal(Conflict('r'))
    ensures Parse(["vnc", "-r", "360"], 1, Defaults) == Run(Defaults.(mask := ROT_0))
    ensures Parse(["vnc", "-s", "200"], 1, Defaults) == Fatal(InvalidScaling(200))
  {
    var a: seq<CString> := ["vnc", "-r", "360"];
    assert Atoi(a[2]) == 360;
    var b: seq<CString> := ["vnc", "-s", "200"];
    assert Atoi(b[2]) == 200;
  }
}
