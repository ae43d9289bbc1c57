/**
  The windres frontend: options collected in vectors of fixed size, and the commands it
  runs built in one vector sized beforehand.
*/
module Windres {
  import opened WindresOptions
  import opened WordSplitting
  import opened Wrappers

  // ----- The commands -----

  function LowerAscii(c: char): char {
    if 'A' <= c <= 'Z' then c - 'A' + 'a' else c
  }

  /** `!_tcsicmp(a, b)`. */
  predicate SameIgnoringCase(a: string, b: string) {
    |a| == |b| && forall k :: 0 <= k < |a| ==> LowerAscii(a[k]) == LowerAscii(b[k])
  }

  function TargetOf(bfdTarget: Option<string>, default: string): Result<string, int> {
    match bfdTarget
    case None => Ok(default)
    case Some(t) =>
      if t == "pe-x86-64" || t == "pei-x86-64" then Ok("x86_64-w64-mingw32")
      else if t == "pe-i386" || t == "pei-i386" then Ok("i686-w64-mingw32")
      else Err(1)
  }

  function UpTo(s: string, c: char): string {
    if s == [] || s[0] == c then [] else [s[0]] + UpTo(s[1..], c)
  }

  function Machine(target: string): string {
    var arch := UpTo(target, '-');
    if arch == "i686" then "X86"
    else if arch == "x86_64" then "X64"
    else if arch == "armv7" then "ARM"
    else if arch == "aarch64" then "ARM64"
    else "unknown"
  }

  /** The directory of a path, by its last separator of either kind. */
  function InputDir(path: string): string {
    if path == [] then "."
    else if path[|path| - 1] == '/' || path[|path| - 1] == '\\' then path[..|path| - 1]
    else InputDir(path[..|path| - 1])
  }

  /** Where the frontend lies, and the target it is named after. */
  datatype Frontend = Frontend(dir: string, target: string)

  function Prefixed(prefix: string, xs: seq<string>): seq<string> {
    seq(|xs|, i requires 0 <= i < |xs| => prefix + xs[i])
  }

  function UnescapedAll(xs: seq<string>): seq<string> {
    seq(|xs|, i requires 0 <= i < |xs| => Unescaped(xs[i]))
  }

  /** The preprocessor options: those given, then the includes, one escaping level undone. */
  function CppArgs(o: Options): seq<string> {
    UnescapedAll(o.cppOptions + Prefixed("-I", o.includes))
  }

  function RcArgs(includes: seq<string>): (r: seq<string>)
    ensures |r| == 2 * |includes|
  {
    if includes == [] then [] else RcArgs(includes[..|includes| - 1]) + ["-I", includes[|includes| - 1]]
  }

  function PreprocessorWords(o: Options, f: Frontend, target: string): seq<string> {
    match o.preprocessor
    case Some(command) => Split(command)
    case None => [f.dir + target + "-clang", "-E", "-xc", "-DRC_INVOKED=1"]
  }

  function PreprocessCommand(o: Options, f: Frontend, target: string): seq<string> {
    PreprocessorWords(o, f, target) + CppArgs(o) + [o.input, "-o", o.output + ".preproc.rc"]
  }

  function CompileCommand(o: Options, f: Frontend): seq<string> {
    [f.dir + "llvm-rc"] + RcArgs(o.includes)
    + ["-I", InputDir(o.input), o.output + ".preproc.rc", "-c", o.codepage]
    + (if o.language.Some? then ["-l", o.language.value] else [])
    + ["-fo", if SameIgnoringCase(o.outputFormat, "res") then o.output else o.output + ".out.res"]
  }

  function ConvertCommand(o: Options, f: Frontend, target: string, input: string): seq<string> {
    [f.dir + "llvm-cvtres", input, "-machine:" + Machine(target), "-out:" + o.output]
  }

  /** The commands that were run, in order, and the exit code. */
  datatype Outcome = Outcome(commands: seq<seq<string>>, exit: int)

  /** A run of the frontend, where the k-th command that is run exits with `status(k)`. */
  function Outcomes(o: Options, f: Frontend, target: string, status: nat -> int): Outcome {
    if SameIgnoringCase(o.inputFormat, "rc") then
      var preprocess, compile := PreprocessCommand(o, f, target), CompileCommand(o, f);
      if status(0) != 0 then Outcome([preprocess], 1)
      else if status(1) != 0 then Outcome([preprocess, compile], 1)
      else if SameIgnoringCase(o.outputFormat, "res") then Outcome([preprocess, compile], 0)
      else if SameIgnoringCase(o.outputFormat, "coff") then
        Outcome([preprocess, compile, ConvertCommand(o, f, target, o.output + ".out.res")],
                if status(2) == -1 then 1 else status(2))
      else Outcome([preprocess, compile], 1)
    else if SameIgnoringCase(o.inputFormat, "res") then
      Outcome([ConvertCommand(o, f, target, o.input)], if status(0) == -1 then 1 else status(0))
    else Outcome([], 1)
  }

  function Run(argv: seq<string>, f: Frontend, status: nat -> int): Outcome {
    match ParseFrom(argv, 1, DEFAULTS)
    case Err(code) => Outcome([], code)
    case Ok(o) =>
      match TargetOf(o.bfdTarget, f.target)
      case Err(code) => Outcome([], code)
      case Ok(target) => Outcomes(o, f, target, status)
  }

  // ----- The frontend itself -----

  /** `v[n++] = s`. */
  method Push(v: array<string>, n: nat, s: string) returns (n': nat)
    requires n < v.Length
    modifies v
    ensures n' == n + 1 && v[..n'] == old(v[..n]) + [s]
  {
    v[n] := s;
    n' := n + 1;
  }

  method PushAll(v: array<string>, n: nat, xs: seq<string>) returns (n': nat)
    requires n + |xs| <= v.Length
    modifies v
    ensures n' == n + |xs| && v[..n'] == old(v[..n]) + xs
  {
    n' := n;
    assert old(v[..n]) + xs[..0] == v[..n];
    for i := 0 to |xs|
      invariant n' == n + i
      invariant v[..n'] == old(v[..n]) + xs[..i]
    {
      assert xs[..i + 1] == xs[..i] + [xs[i]];
      n' := Push(v, n', xs[i]);
    }
    assert xs[..|xs|] == xs;
  }

  /** Options with the includes and the preprocessor options kept elsewhere. */
  function With(o: Options, includes: seq<string>, cppOptions: seq<string>): Options {
    o.(includes := includes, cppOptions := cppOptions)
  }

  lemma ParseEnd(argv: seq<string>, o: Options)
    ensures ParseFrom(argv, |argv|, o) == Ok(o)
  {
  }

  /** What the next option does to the options, and to those kept elsewhere. */
  lemma ParseNext(argv: seq<string>, i: nat, o: Options, includes: seq<string>, cppOptions: seq<string>)
    requires i < |argv| && o.includes == [] && o.cppOptions == []
    ensures var p, all := Classify(argv, i), ParseFrom(argv, i, With(o, includes, cppOptions));
      match p.action
      case Quit(code) => all == Err(code)
      case Assign(IncludeDir, v) => all == ParseFrom(argv, p.last + 1, With(o, includes + [v], cppOptions))
      case Assign(Cpp(prefix), v) => all == ParseFrom(argv, p.last + 1, With(o, includes, cppOptions + [prefix + v]))
      case _ =>
        match Apply(o, p.action)
        case Err(code) => all == Err(code)
        case Ok(o') =>
          && o'.includes == [] && o'.cppOptions == []
          && (o'.preprocessor == o.preprocessor || (o'.preprocessor.Some? && o'.preprocessor.value in argv))
          && all == ParseFrom(argv, p.last + 1, With(o', includes, cppOptions))
  {
    hide Classify;
    ClassifyAdvances(argv, i);
  }

  /** The option loop of `_tmain`; the vectors have one element for each argument. */
  method ParseOptions(argv: seq<string>, includes: array<string>, cppOptions: array<string>)
    returns (r: Result<Options, int>, nbIncludes: nat, nbCppOptions: nat)
    requires argv != [] && includes != cppOptions && includes.Length == cppOptions.Length == |argv|
    modifies includes, cppOptions
    ensures match ParseFrom(argv, 1, DEFAULTS)
      case Err(code) => r == Err(code)
      case Ok(o) =>
        && r == Ok(o.(includes := [], cppOptions := []))
        && nbIncludes + nbCppOptions < |argv|
        && (o.preprocessor.Some? ==> o.preprocessor.value in argv)
        && includes[..nbIncludes] == o.includes && cppOptions[..nbCppOptions] == o.cppOptions
  {
    hide Classify, ParseFrom, Apply;
    nbIncludes, nbCppOptions := 0, 0;
    var o := DEFAULTS;
    var i := 1;
    while i < |argv|
      invariant 1 <= i <= |argv| && nbIncludes + nbCppOptions < i
      invariant o.includes == [] && o.cppOptions == []
      invariant o.preprocessor.Some? ==> o.preprocessor.value in argv
      invariant ParseFrom(argv, 1, DEFAULTS)
             == ParseFrom(argv, i, With(o, includes[..nbIncludes], cppOptions[..nbCppOptions]))
    {
      var p := Classify(argv, i);
      ClassifyAdvances(argv, i);
      ParseNext(argv, i, o, includes[..nbIncludes], cppOptions[..nbCppOptions]);
      if p.action.Quit? {
        return Err(p.action.code), nbIncludes, nbCppOptions;
      }
      if p.action.Assign? && p.action.field.IncludeDir? {
        nbIncludes := Push(includes, nbIncludes, p.action.v);
      } else if p.action.Assign? && p.action.field.Cpp? {
        nbCppOptions := Push(cppOptions, nbCppOptions, p.action.field.prefix + p.action.v);
      } else {
        var applied := Apply(o, p.action);
        if applied.Err? {
          return Err(applied.error), nbIncludes, nbCppOptions;
        }
        o := applied.value;
      }
      i := p.last + 1;
    }
    ParseEnd(argv, With(o, includes[..nbIncludes], cppOptions[..nbCppOptions]));
    r := Ok(o);
  }

  /** The includes join the preprocessor options, and make up the resource compiler's. */
  method AddIncludes(includes: array<string>, nbIncludes: nat, cppOptions: array<string>, nbCppOptions: nat,
                     rcOptions: array<string>)
    returns (nbCpp: nat, nbRc: nat)
    requires includes != cppOptions && includes != rcOptions && cppOptions != rcOptions
    requires nbIncludes <= includes.Length && nbCppOptions + nbIncludes <= cppOptions.Length
    requires 2 * nbIncludes <= rcOptions.Length
    modifies cppOptions, rcOptions
    ensures nbCpp == nbCppOptions + nbIncludes && nbRc == 2 * nbIncludes
    ensures cppOptions[..nbCpp] == old(cppOptions[..nbCppOptions]) + Prefixed("-I", includes[..nbIncludes])
    ensures rcOptions[..nbRc] == RcArgs(includes[..nbIncludes])
  {
    nbCpp, nbRc := nbCppOptions, 0;
    for i := 0 to nbIncludes
      invariant nbCpp == nbCppOptions + i && nbRc == 2 * i
      invariant cppOptions[..nbCpp] == old(cppOptions[..nbCppOptions]) + Prefixed("-I", includes[..i])
      invariant rcOptions[..nbRc] == RcArgs(includes[..i])
    {
      assert includes[..i + 1] == includes[..i] + [includes[i]];
      assert includes[..i + 1][..i] == includes[..i];
      nbCpp := Push(cppOptions, nbCpp, "-I" + includes[i]);
      nbRc := PushAll(rcOptions, nbRc, ["-I", includes[i]]);
    }
  }

  lemma CppArgsOf(o: Options, xs: seq<string>)
    requires xs == o.cppOptions + Prefixed("-I", o.includes)
    ensures UnescapedAll(xs) == CppArgs(o) && |CppArgs(o)| == |o.cppOptions| + |o.includes|
  {
  }

  method UnescapeOptions(cppOptions: array<string>, nb: nat)
    requires nb <= cppOptions.Length
    modifies cppOptions
    ensures cppOptions[..nb] == UnescapedAll(old(cppOptions[..nb]))
  {
    for i := 0 to nb
      invariant forall k :: 0 <= k < i ==> cppOptions[k] == Unescaped(old(cppOptions[k]))
      invariant forall k :: i <= k < nb ==> cppOptions[k] == old(cppOptions[k])
    {
      cppOptions[i] := UnescapeCpp(cppOptions[i]);
    }
  }

  /** The vector is terminated, and no command was longer than the vector was sized for. */
  method Finish(execArgv: array<string>, arg: nat, maxArg: nat) returns (command: seq<string>)
    requires arg <= maxArg < execArgv.Length
    modifies execArgv
    ensures command == old(execArgv[..arg])
  {
    command := execArgv[..arg];
    execArgv[arg] := NULL;
  }

  // The terminator of a vector; commands are given by their elements before it.
  const NULL: string := ""

  method BuildPreprocess(o: Options, f: Frontend, target: string, cppArgs: seq<string>,
                         execArgv: array<string>, maxArg: nat)
    returns (command: seq<string>)
    requires cppArgs == CppArgs(o)
    requires |cppArgs| + 7 + (if o.preprocessor.Some? then |Split(o.preprocessor.value)| else 0) <= maxArg
    requires maxArg < execArgv.Length && (o.preprocessor.Some? ==> |o.preprocessor.value| <= INT_MAX)
    modifies execArgv
    ensures command == PreprocessCommand(o, f, target)
  {
    var arg := 0;
    if o.preprocessor.Some? {
      arg := SplitArgs(o.preprocessor.value, execArgv, 0, maxArg);
      assert execArgv[..arg] == Split(o.preprocessor.value);
    } else {
      arg := PushAll(execArgv, arg, [f.dir + target + "-clang", "-E", "-xc", "-DRC_INVOKED=1"]);
    }
    arg := PushAll(execArgv, arg, cppArgs);
    arg := PushAll(execArgv, arg, [o.input, "-o", o.output + ".preproc.rc"]);
    command := Finish(execArgv, arg, maxArg);
  }

  method BuildCompile(o: Options, f: Frontend, rcArgs: seq<string>, execArgv: array<string>, maxArg: nat)
    returns (command: seq<string>)
    requires rcArgs == RcArgs(o.includes) && |rcArgs| + 10 <= maxArg < execArgv.Length
    modifies execArgv
    ensures command == CompileCommand(o, f)
  {
    hide RcArgs, InputDir, SameIgnoringCase;
    var arg := Push(execArgv, 0, f.dir + "llvm-rc");
    arg := PushAll(execArgv, arg, rcArgs);
    arg := PushAll(execArgv, arg, ["-I", InputDir(o.input), o.output + ".preproc.rc", "-c", o.codepage]);
    arg := PushAll(execArgv, arg, if o.language.Some? then ["-l", o.language.value] else []);
    var res := if SameIgnoringCase(o.outputFormat, "res") then o.output else o.output + ".out.res";
    arg := PushAll(execArgv, arg, ["-fo", res]);
    command := Finish(execArgv, arg, maxArg);
  }

  method BuildConvert(o: Options, f: Frontend, target: string, input: string, execArgv: array<string>, maxArg: nat)
    returns (command: seq<string>)
    requires 4 <= maxArg < execArgv.Length
    modifies execArgv
    ensures command == ConvertCommand(o, f, target, input)
  {
    var arg := Push(execArgv, 0, f.dir + "llvm-cvtres");
    arg := Push(execArgv, arg, input);
    arg := Push(execArgv, arg, "-machine:" + Machine(target));
    arg := Push(execArgv, arg, "-out:" + o.output);
    command := Finish(execArgv, arg, maxArg);
  }

  /** Runs the commands; `maxArg` is the size the vector is allocated with. */
  method Execute(o: Options, f: Frontend, target: string, cppArgs: seq<string>, rcArgs: seq<string>,
                 execArgv: array<string>, maxArg: nat, status: nat -> int)
    returns (out: Outcome)
    requires cppArgs == CppArgs(o) && rcArgs == RcArgs(o.includes)
    requires |cppArgs| + 7 + (if o.preprocessor.Some? then |Split(o.preprocessor.value)| else 0) <= maxArg
    requires |rcArgs| + 10 <= maxArg < execArgv.Length
    requires o.preprocessor.Some? ==> |o.preprocessor.value| <= INT_MAX
    modifies execArgv
    ensures out == Outcomes(o, f, target, status)
  {
    if SameIgnoringCase(o.inputFormat, "rc") {
      var preprocess := BuildPreprocess(o, f, target, cppArgs, execArgv, maxArg);
      if status(0) != 0 {
        return Outcome([preprocess], 1);
      }
      var compile := BuildCompile(o, f, rcArgs, execArgv, maxArg);
      if status(1) != 0 {
        return Outcome([preprocess, compile], 1);
      }
      if SameIgnoringCase(o.outputFormat, "res") {
        return Outcome([preprocess, compile], 0);
      } else if SameIgnoringCase(o.outputFormat, "coff") {
        var convert := BuildConvert(o, f, target, o.output + ".out.res", execArgv, maxArg);
        return Outcome([preprocess, compile, convert], if status(2) == -1 then 1 else status(2));
      } else {
        return Outcome([preprocess, compile], 1);
      }
    } else if SameIgnoringCase(o.inputFormat, "res") {
      var convert := BuildConvert(o, f, target, o.input, execArgv, maxArg);
      return Outcome([convert], if status(0) == -1 then 1 else status(0));
    } else {
      return Outcome([], 1);
    }
  }

  /**
    For every command line, the vectors allocated from `argc` and from the counting pass
    over the preprocessor command are large enough for everything written to them.
  */
  method Tmain(argv: seq<string>, f: Frontend, status: nat -> int) returns (out: Outcome)
    requires argv != [] && forall a :: a in argv ==> |a| <= INT_MAX
    ensures out == Run(argv, f, status)
  {
    hide ParseFrom, Outcomes, TargetOf, RcArgs, UnescapedAll, Prefixed, Split;
    var argc := |argv|;
    var includes := new string[argc];
    var cppOptions := new string[argc];
    var r, nbIncludes, nbCppOptions := ParseOptions(argv, includes, cppOptions);
    if r.Err? {
      return Outcome([], r.error);
    }
    var o := r.value.(includes := includes[..nbIncludes], cppOptions := cppOptions[..nbCppOptions]);
    var target := TargetOf(o.bfdTarget, f.target);
    if target.Err? {
      return Outcome([], target.error);
    }
    var rcOptions := new string[2 * argc];
    var nbCpp, nbRc := AddIncludes(includes, nbIncludes, cppOptions, nbCppOptions, rcOptions);
    CppArgsOf(o, cppOptions[..nbCpp]);
    UnescapeOptions(cppOptions, nbCpp);
    var maxArg := 2 * argc + 20;
    if o.preprocessor.Some? {
      var words := SplitArgs(o.preprocessor.value, null, 0, 0);
      maxArg := maxArg + words;
    }
    var execArgv := new string[maxArg + 1];
    out := Execute(o, f, target.value, cppOptions[..nbCpp], rcOptions[..nbRc], execArgv, maxArg, status);
  }
}
