/**
  The commands that a windres command line runs: what each is given, and that each reads the
  file the one before it writes, from the input to the output.
*/
module WindresCommands {
  import opened Windres
  import opened WindresCommandLine
  import opened WindresOptions
  import opened WordSplitting
  import opened Wrappers

  /** What a command line names. */
  datatype Names = Names(
    input: string, output: string, inputFormat: string, outputFormat: string, target: Option<string>,
    includes: seq<string>, codepage: string, language: Option<string>, preprocessor: Option<string>,
    cppOptions: seq<string>)

  function NamesOf(argv: seq<string>): Names {
    var n := |argv|;
    Names(InputBefore(argv, n), OutputBefore(argv, n),
          Or(Last(argv, n, Named("-J", "--input-format")), "rc"),
          Or(Last(argv, n, Named("-O", "--output-format")), "coff"),
          Last(argv, n, Named("-F", "--target")), All(argv, n, Include),
          Or(Last(argv, n, Named("-c", "--codepage")), "1252"), Last(argv, n, Named("-l", "--language")),
          Last(argv, n, PreprocessorCommand), All(argv, n, Preprocessing))
  }

  /** The preprocessor, its options and the includes, then the file read and the file written. */
  predicate Preprocesses(c: seq<string>, words: seq<string>, n: Names) {
    var w, k := |words|, |n.cppOptions|;
    && |c| == w + k + |n.includes| + 3 && c[..w] == words
    && (forall i :: 0 <= i < k ==> c[w + i] == Unescaped(n.cppOptions[i]))
    && (forall i :: 0 <= i < |n.includes| ==> c[w + k + i] == Unescaped("-I" + n.includes[i]))
    && c[|c| - 3..] == [n.input, "-o", n.output + ".preproc.rc"]
  }

  /** The resource compiler, the includes, the directory of the input, the file read and the file written. */
  predicate Compiles(c: seq<string>, program: string, n: Names, to: string) {
    var k := 2 * |n.includes|;
    && |c| == k + (if n.language.Some? then 10 else 8) && c[0] == program
    && (forall i :: 0 <= i < |n.includes| ==> c[1 + 2 * i] == "-I" && c[2 + 2 * i] == n.includes[i])
    && c[k + 1] == "-I" && c[k + 3] == n.output + ".preproc.rc" && c[k + 4] == "-c" && c[k + 5] == n.codepage
    && (n.language.Some? ==> c[k + 6] == "-l" && c[k + 7] == n.language.value)
    && c[|c| - 2] == "-fo" && c[|c| - 1] == to
  }

  predicate Converts(c: seq<string>, program: string, from: string, machine: string, to: string) {
    c == [program, from, "-machine:" + machine, "-out:" + to]
  }

  lemma {:induction false} RcArgsAre(includes: seq<string>)
    ensures forall i :: 0 <= i < |includes| ==>
      RcArgs(includes)[2 * i] == "-I" && RcArgs(includes)[2 * i + 1] == includes[i]
  {
    if includes != [] {
      var front := includes[..|includes| - 1];
      RcArgsAre(front);
      assert RcArgs(includes) == RcArgs(front) + ["-I", includes[|includes| - 1]];
    }
  }

  lemma CompileIs(o: Options, f: Frontend, n: Names)
    requires o.includes == n.includes && o.output == n.output && o.codepage == n.codepage && o.language == n.language
    ensures Compiles(CompileCommand(o, f), f.dir + "llvm-rc", n,
      if SameIgnoringCase(o.outputFormat, "res") then n.output else n.output + ".out.res")
    ensures CompileCommand(o, f)[2 * |n.includes| + 2] == InputDir(o.input)
  {
    RcArgsAre(n.includes);
    hide RcArgs, InputDir, SameIgnoringCase;
    var c, rc := CompileCommand(o, f), RcArgs(n.includes);
    assert c[1..1 + |rc|] == rc;
    forall i | 0 <= i < |n.includes|
      ensures c[1 + 2 * i] == rc[2 * i] && c[2 + 2 * i] == rc[2 * i + 1]
    {
    }
  }

  lemma PreprocessIs(o: Options, f: Frontend, target: string, n: Names)
    requires o.includes == n.includes && o.output == n.output && o.input == n.input && o.cppOptions == n.cppOptions
    ensures Preprocesses(PreprocessCommand(o, f, target), PreprocessorWords(o, f, target), n)
  {
    hide PreprocessorWords, Unescaped;
    var c, words, cpp := PreprocessCommand(o, f, target), PreprocessorWords(o, f, target), CppArgs(o);
    assert c[|words|..|words| + |cpp|] == cpp;
    forall i | 0 <= i < |cpp|
      ensures c[|words| + i] == cpp[i]
    {
    }
  }

  /** The words a preprocessor is called with: those of the command given for it, or the compiler's. */
  function WordsFor(n: Names, dir: string, target: string): seq<string> {
    if n.preprocessor.Some? then Split(n.preprocessor.value)
    else [dir + target + "-clang", "-E", "-xc", "-DRC_INVOKED=1"]
  }

  /**
    A resource script is preprocessed, compiled and, for an object file, converted; each command
    runs if those before it succeed.
  */
  predicate RunsScript(out: Outcome, n: Names, f: Frontend, target: string, status: nat -> int) {
    var cs := out.commands;
    var toRes, toCoff := SameIgnoringCase(n.outputFormat, "res"), SameIgnoringCase(n.outputFormat, "coff");
    && |cs| == (if status(0) != 0 then 1 else if status(1) != 0 || !toCoff then 2 else 3)
    && Preprocesses(cs[0], WordsFor(n, f.dir, target), n)
    && (|cs| > 1 ==>
          && Compiles(cs[1], f.dir + "llvm-rc", n, if toRes then n.output else n.output + ".out.res")
          && cs[1][2 * |n.includes| + 2] == InputDir(n.input))
    && (|cs| > 2 ==> Converts(cs[2], f.dir + "llvm-cvtres", n.output + ".out.res", Machine(target), n.output))
    && (out.exit == 0 <==> status(0) == 0 && status(1) == 0 && (toRes || (toCoff && status(2) == 0)))
    && (out.exit != 0 ==> out.exit == if |cs| == 3 && status(2) != -1 then status(2) else 1)
  }

  lemma ScriptRuns(o: Options, f: Frontend, target: string, status: nat -> int, n: Names)
    requires SameIgnoringCase(o.inputFormat, "rc")
    requires o.includes == n.includes && o.output == n.output && o.input == n.input && o.cppOptions == n.cppOptions
    requires o.codepage == n.codepage && o.language == n.language && o.preprocessor == n.preprocessor
    requires o.outputFormat == n.outputFormat
    ensures RunsScript(Outcomes(o, f, target, status), n, f, target, status)
  {
    hide SameIgnoringCase, Compiles, Preprocesses, CompileCommand, PreprocessCommand, Machine, InputDir;
    CompileIs(o, f, n);
    PreprocessIs(o, f, target, n);
    NotBoth(n.outputFormat);
  }

  lemma NotBoth(format: string)
    ensures !(SameIgnoringCase(format, "res") && SameIgnoringCase(format, "coff"))
    ensures !(SameIgnoringCase(format, "rc") && SameIgnoringCase(format, "res"))
  {
  }

  /** For every accepted command line, the commands run with the files and options that its arguments name. */
  lemma CommandLineRuns(argv: seq<string>, f: Frontend, status: nat -> int)
    requires argv != []
    ensures var n, out := NamesOf(argv), Run(argv, f, status);
      if !AllFine(argv, 1, |argv|) then
        out.commands == [] && exists k :: Refuses(argv, 1, k, out.exit)
      else
        match TargetOf(n.target, f.target)
        case Err(_) => out == Outcome([], 1)
        case Ok(target) =>
          if SameIgnoringCase(n.inputFormat, "rc") then RunsScript(out, n, f, target, status)
          else if SameIgnoringCase(n.inputFormat, "res") then
            && |out.commands| == 1
            && Converts(out.commands[0], f.dir + "llvm-cvtres", n.input, Machine(target), n.output)
            && out.exit == if status(0) == -1 then 1 else status(0)
          else out == Outcome([], 1)
  {
    hide AllFine, ParseFrom, NamesOf, SameIgnoringCase, RunsScript, Machine, PreprocessCommand, CompileCommand, Says;
    CommandLineSays(argv);
    var r := ParseFrom(argv, 1, DEFAULTS);
    if r.Ok? {
      var o, n := r.value, NamesOf(argv);
      SaidNames(argv, o);
      var target := TargetOf(o.bfdTarget, f.target);
      if target.Ok? && SameIgnoringCase(o.inputFormat, "rc") {
        ScriptRuns(o, f, target.value, status, n);
      }
    }
  }

  lemma SaidNames(argv: seq<string>, o: Options)
    requires Says(argv, |argv|, o)
    ensures var n := NamesOf(argv);
      && o.input == n.input && o.output == n.output && o.inputFormat == n.inputFormat
      && o.outputFormat == n.outputFormat && o.bfdTarget == n.target && o.includes == n.includes
      && o.codepage == n.codepage && o.language == n.language && o.preprocessor == n.preprocessor
      && o.cppOptions == n.cppOptions
  {
  }

  /** Each command reads what the one before it writes, and the last writes the output. */
  lemma FilesChain(out: Outcome, n: Names, f: Frontend, target: string, status: nat -> int)
    requires RunsScript(out, n, f, target, status)
    ensures var cs := out.commands;
      && cs[0][|cs[0]| - 3] == n.input
      && (|cs| > 1 ==> cs[1][2 * |n.includes| + 3] == cs[0][|cs[0]| - 1])
      && (|cs| > 2 ==> cs[2][1] == cs[1][|cs[1]| - 1] && cs[2][3] == "-out:" + n.output)
      && (out.exit == 0 && |cs| == 2 ==> cs[1][|cs[1]| - 1] == n.output)
      && (out.exit == 0 ==> |cs| == if SameIgnoringCase(n.outputFormat, "res") then 2 else 3)
  {
    hide SameIgnoringCase, Machine, InputDir, WordsFor;
    NotBoth(n.outputFormat);
  }

  /** The directory of a path is what stands in front of its last separator. */
  lemma {:induction false} InputDirIs(dir: string, sep: char, name: string)
    requires '/' !in name && '\\' !in name
    ensures InputDir(name) == "."
    ensures sep == '/' || sep == '\\' ==> InputDir(dir + [sep] + name) == dir
  {
    if name == [] {
      assert dir + [sep] + name == dir + [sep];
    } else {
      var front := name[..|name| - 1];
      InputDirIs(dir, sep, front);
      assert (dir + [sep] + name)[..|dir + [sep] + name| - 1] == dir + [sep] + front;
    }
  }

  /** The machine is that of the architecture in front of the first hyphen. */
  lemma MachineIs(arch: string, rest: string, machine: string)
    requires (arch, machine) in {("i686", "X86"), ("x86_64", "X64"), ("armv7", "ARM"), ("aarch64", "ARM64")}
    ensures Machine(arch + ['-'] + rest) == machine
  {
    UpToIs(arch, rest, '-');
    hide UpTo;
  }

  /** A target that is asked for is that of its architecture; any other is refused. */
  lemma TargetIs(t: string, default: string)
    ensures match TargetOf(Some(t), default)
      case Ok(target) =>
        if t in {"pe-x86-64", "pei-x86-64"} then
          target == "x86_64-w64-mingw32" && Machine(target) == "X64"
        else t in {"pe-i386", "pei-i386"} && target == "i686-w64-mingw32" && Machine(target) == "X86"
      case Err(code) => code == 1 && t !in {"pe-x86-64", "pei-x86-64", "pe-i386", "pei-i386"}
  {
    hide Machine;
    MachineIs("x86_64", "w64-mingw32", "X64");
    MachineIs("i686", "w64-mingw32", "X86");
    assert "x86_64" + ['-'] + "w64-mingw32" == "x86_64-w64-mingw32";
    assert "i686" + ['-'] + "w64-mingw32" == "i686-w64-mingw32";
  }
}
