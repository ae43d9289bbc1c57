/** The command line of the windres frontend: what each argument means. */
module WindresOptions {
  import opened Wrappers

  datatype Options = Options(
    bfdTarget: Option<string>, input: string, output: string, inputFormat: string, outputFormat: string,
    includes: seq<string>, codepage: string, language: Option<string>, preprocessor: Option<string>,
    cppOptions: seq<string>, verbose: bool)

  const DEFAULTS: Options :=
    Options(None, "-", "/dev/stdout", "rc", "coff", [], "1252", None, None, [], false)

  /** What an option's value is for; a preprocessor option may get its letter put back in front. */
  datatype Field =
    | Input | Output | InputFormat | OutputFormat | Target | IncludeDir | Codepage | Language | Preprocessor
    | Cpp(prefix: string)

  /** What one argument, with the one after it where it needs a value, asks for. */
  datatype Action = Assign(field: Field, v: string) | SetVerbose | Ignore | Operand(v: string) | Quit(code: int)

  /** An action and the index of the last argument it used. */
  datatype Parsed = Parsed(action: Action, last: nat)

  /** The value of an option, if the argument is that option. */
  datatype Match = NoMatch | Missing | Value(v: string, last: nat)

  /** An option written `-xVALUE`, `--long=VALUE`, `-x VALUE` or `--long VALUE`. */
  function MatchOption(argv: seq<string>, i: nat, short: string, long: string): Match
    requires i < |argv|
  {
    var a := argv[i];
    if short < a then Value(a[|short|..], i)
    else if long + "=" <= a then Value(a[|long| + 1..], i)
    else if a == short || a == long then Separate(argv, i)
    else NoMatch
  }

  function Separate(argv: seq<string>, i: nat): Match
    requires i < |argv|
  {
    if i + 1 < |argv| then Value(argv[i + 1], i + 1) else Missing
  }

  /** The option if it matched, and otherwise what comes next. */
  function OrElse(m: Match, field: Field, next: Parsed): Parsed {
    match m
    case NoMatch => next
    case Missing => Parsed(Quit(1), 0)
    case Value(v, last) => Parsed(Assign(field, v), last)
  }

  function Classify(argv: seq<string>, i: nat): Parsed
    requires i < |argv|
  {
    OrElse(MatchOption(argv, i, "-i", "--input"), Input,
    OrElse(MatchOption(argv, i, "-o", "--output"), Output,
    OrElse(MatchOption(argv, i, "-J", "--input-format"), InputFormat,
    OrElse(MatchOption(argv, i, "-O", "--output-format"), OutputFormat,
    OrElse(MatchOption(argv, i, "-F", "--target"), Target,
    ClassifyInclude(argv, i))))))
  }

  function ClassifyInclude(argv: seq<string>, i: nat): Parsed
    requires i < |argv|
  {
    var a := argv[i];
    if a == "-I" || a == "--include-dir" || a == "--include" then
      OrElse(Separate(argv, i), IncludeDir, Parsed(Ignore, i))
    else if "--include-dir=" <= a then Parsed(Assign(IncludeDir, a[14..]), i)
    else if "--include=" <= a then Parsed(Assign(IncludeDir, a[10..]), i)
    else if "-I" <= a then Parsed(Assign(IncludeDir, a[2..]), i)
    else
      OrElse(MatchOption(argv, i, "-c", "--codepage"), Codepage,
      OrElse(MatchOption(argv, i, "-l", "--language"), Language,
      ClassifyCpp(argv, i)))
  }

  function ClassifyCpp(argv: seq<string>, i: nat): Parsed
    requires i < |argv|
  {
    var a := argv[i];
    if a == "--preprocessor" then OrElse(Separate(argv, i), Preprocessor, Parsed(Ignore, i))
    else if "--preprocessor-arg=" <= a then Parsed(Assign(Cpp(""), a[19..]), i)
    else if a == "--preprocessor-arg" then OrElse(Separate(argv, i), Cpp(""), Parsed(Ignore, i))
    else if a == "-D" || a == "--define" then OrElse(Separate(argv, i), Cpp("-D"), Parsed(Ignore, i))
    else if "-D" <= a then Parsed(Assign(Cpp(""), a), i)
    else if a == "-U" || a == "--undefine" then OrElse(Separate(argv, i), Cpp("-U"), Parsed(Ignore, i))
    else if "-U" <= a then Parsed(Assign(Cpp(""), a), i)
    else ClassifyRest(a, i)
  }

  function ClassifyRest(a: string, i: nat): Parsed {
    if a == "-v" || a == "--verbose" then Parsed(SetVerbose, i)
    else if a == "-V" || a == "--version" || a == "-h" || a == "--help" then Parsed(Quit(0), i)
    else if a == "--use-temp-file" then Parsed(Ignore, i)
    else if "-" <= a then Parsed(Quit(1), i)
    else Parsed(Operand(a), i)
  }

  function Set(o: Options, field: Field, v: string): Options {
    match field
    case Input => o.(input := v)
    case Output => o.(output := v)
    case InputFormat => o.(inputFormat := v)
    case OutputFormat => o.(outputFormat := v)
    case Target => o.(bfdTarget := Some(v))
    case IncludeDir => o.(includes := o.includes + [v])
    case Codepage => o.(codepage := v)
    case Language => o.(language := Some(v))
    case Preprocessor => o.(preprocessor := Some(v))
    case Cpp(prefix) => o.(cppOptions := o.cppOptions + [prefix + v])
  }

  /** Operands name the input, then the output, while these still have their default values. */
  function Apply(o: Options, action: Action): Result<Options, int> {
    match action
    case Assign(field, v) => Ok(Set(o, field, v))
    case SetVerbose => Ok(o.(verbose := true))
    case Ignore => Ok(o)
    case Operand(v) =>
      if o.input == "-" then Ok(o.(input := v))
      else if o.output == "/dev/stdout" then Ok(o.(output := v))
      else Err(1)
    case Quit(code) => Err(code)
  }

  /** An action uses the argument it is found at, and perhaps the next one. */
  predicate Advances(argv: seq<string>, i: nat, p: Parsed) {
    && (!p.action.Quit? ==> i <= p.last <= i + 1 && p.last < |argv|)
    && (p.action.Assign? && p.action.field == Preprocessor ==> p.action.v in argv)
  }

  lemma OptionAdvances(argv: seq<string>, i: nat, short: string, long: string, field: Field, next: Parsed)
    requires i < |argv| && field != Preprocessor && Advances(argv, i, next)
    ensures Advances(argv, i, OrElse(MatchOption(argv, i, short, long), field, next))
  {
  }

  lemma CppAdvances(argv: seq<string>, i: nat)
    requires i < |argv|
    ensures Advances(argv, i, ClassifyCpp(argv, i))
  {
  }

  lemma IncludeAdvances(argv: seq<string>, i: nat)
    requires i < |argv|
    ensures Advances(argv, i, ClassifyInclude(argv, i))
  {
    hide ClassifyCpp, MatchOption;
    var next := ClassifyCpp(argv, i);
    CppAdvances(argv, i);
    OptionAdvances(argv, i, "-l", "--language", Language, next);
    next := OrElse(MatchOption(argv, i, "-l", "--language"), Language, next);
    OptionAdvances(argv, i, "-c", "--codepage", Codepage, next);
  }

  lemma ClassifyAdvances(argv: seq<string>, i: nat)
    requires i < |argv|
    ensures Advances(argv, i, Classify(argv, i))
  {
    hide ClassifyInclude, MatchOption;
    var next := ClassifyInclude(argv, i);
    IncludeAdvances(argv, i);
    OptionAdvances(argv, i, "-F", "--target", Target, next);
    next := OrElse(MatchOption(argv, i, "-F", "--target"), Target, next);
    OptionAdvances(argv, i, "-O", "--output-format", OutputFormat, next);
    next := OrElse(MatchOption(argv, i, "-O", "--output-format"), OutputFormat, next);
    OptionAdvances(argv, i, "-J", "--input-format", InputFormat, next);
    next := OrElse(MatchOption(argv, i, "-J", "--input-format"), InputFormat, next);
    OptionAdvances(argv, i, "-o", "--output", Output, next);
    next := OrElse(MatchOption(argv, i, "-o", "--output"), Output, next);
    OptionAdvances(argv, i, "-i", "--input", Input, next);
  }

  /** The options of a whole command line, from argument `i` on; an error is an exit code. */
  function ParseFrom(argv: seq<string>, i: nat, o: Options): Result<Options, int>
    decreases |argv| - i
  {
    if i >= |argv| then Ok(o)
    else
      var p := Classify(argv, i);
      match Apply(o, p.action)
      case Err(code) => Err(code)
      case Ok(o') => ClassifyAdvances(argv, i); ParseFrom(argv, p.last + 1, o')
  }

  /** Every include and preprocessor option comes from an argument of its own. */
  lemma {:induction false} CountsBounded(argv: seq<string>, i: nat, o: Options)
    requires 1 <= i <= |argv| && |o.includes| + |o.cppOptions| < i
    ensures ParseFrom(argv, i, o).Ok? ==>
      |ParseFrom(argv, i, o).value.includes| + |ParseFrom(argv, i, o).value.cppOptions| < |argv|
    decreases |argv| - i
  {
    hide Classify;
    if i < |argv| {
      var p := Classify(argv, i);
      ClassifyAdvances(argv, i);
      if Apply(o, p.action).Ok? {
        CountsBounded(argv, p.last + 1, Apply(o, p.action).value);
      }
    }
  }
}
