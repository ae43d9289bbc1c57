/**
  What a windres command line means: which arguments are options, what the last one of a
  kind names, and which files the commands read and write.
*/
module WindresCommandLine {
  import opened Windres
  import opened WindresOptions
  import opened Wrappers

  // ----- Which arguments are options -----

  /** The arguments that take the next one as their value. */
  predicate Takes(a: string) {
    a in {"-i", "--input", "-o", "--output", "-J", "--input-format", "-O", "--output-format", "-F", "--target",
          "-I", "--include-dir", "--include", "-c", "--codepage", "-l", "--language", "--preprocessor",
          "--preprocessor-arg", "-D", "--define", "-U", "--undefine"}
  }

  /** The argument is not the value of the one in front of it. */
  predicate Starts(argv: seq<string>, i: nat) {
    i == 1 || (1 < i <= |argv| && !(Starts(argv, i - 1) && Takes(argv[i - 1])))
  }

  predicate IsOperand(a: string) {
    a == "" || a[0] != '-'
  }

  /** The name of the option that an argument is spelled with. */
  function Name(a: string): string {
    if |a| >= 2 && a[0] == '-' && a[1] != '-' then a[..2] else UpTo(a, '=')
  }

  /** A letter behind one hyphen, and a name without an equals sign behind two. */
  predicate IsOption(short: string, long: string) {
    && |short| == 2 && short[0] == '-' && short[1] != '-'
    && |long| >= 2 && long[0] == '-' && long[1] == '-' && '=' !in long
  }

  lemma {:induction false} UpToIs(s: string, t: string, c: char)
    requires c !in s
    ensures UpTo(s, c) == s && UpTo(s + [c] + t, c) == s
  {
    if s == [] {
      assert s + [c] + t == [c] + t;
    } else {
      assert (s + [c] + t)[1..] == s[1..] + [c] + t;
      UpToIs(s[1..], t, c);
    }
  }

  lemma {:induction false} UpToEnds(s: string, c: char)
    ensures c !in UpTo(s, c) && (UpTo(s, c) == s || UpTo(s, c) + [c] <= s)
  {
    if s != [] && s[0] != c {
      UpToEnds(s[1..], c);
    }
  }

  predicate Spelled(a: string, short: string, long: string) {
    short <= a || a == long || long + "=" <= a
  }

  lemma SpelledIff(a: string, short: string, long: string)
    requires IsOption(short, long)
    ensures Spelled(a, short, long) <==> Name(a) == short || Name(a) == long
  {
    UpToEnds(a, '=');
    if long + "=" <= a {
      assert a == long + ['='] + a[|long| + 1..];
      UpToIs(long, a[|long| + 1..], '=');
    }
    UpToIs(long, "", '=');
  }

  /** The four spellings of an option, and none besides. */
  lemma FourSpellings(argv: seq<string>, i: nat, short: string, long: string, v: string)
    requires i < |argv| && IsOption(short, long)
    ensures (exists last :: MatchOption(argv, i, short, long) == Value(v, last))
       <==> || (v != "" && argv[i] == short + v) || argv[i] == long + "=" + v
            || ((argv[i] == short || argv[i] == long) && i + 1 < |argv| && argv[i + 1] == v)
  {
    var a := argv[i];
    if v != "" && a == short + v {
      assert MatchOption(argv, i, short, long) == Value(v, i);
    } else if a == long + "=" + v {
      assert a[|long| + 1..] == v && a[0] == long[0] && a[1] == long[1];
      assert MatchOption(argv, i, short, long) == Value(v, i);
    } else if (a == short || a == long) && i + 1 < |argv| && argv[i + 1] == v {
      assert MatchOption(argv, i, short, long) == Value(v, i + 1);
    }
  }

  // ----- What the arguments name -----

  /** A kind of option: one with a letter and a name, or one of those with spellings of their own. */
  datatype Kind = Named(short: string, long: string) | Include | Preprocessing | PreprocessorCommand

  function ValueAt(argv: seq<string>, i: nat, short: string, long: string): Option<string>
    requires i < |argv|
  {
    match MatchOption(argv, i, short, long)
    case Value(v, _) => Some(v)
    case _ => None
  }

  /** A directory for includes has two long names. */
  function IncludeAt(argv: seq<string>, i: nat): Option<string>
    requires i < |argv|
  {
    var v := ValueAt(argv, i, "-I", "--include-dir");
    if v.Some? then v else ValueAt(argv, i, "-I", "--include")
  }

  /** An option for the preprocessor; definitions are passed on with their letter. */
  function CppAt(argv: seq<string>, i: nat): Option<string>
    requires i < |argv|
  {
    var a, more := argv[i], i + 1 < |argv|;
    if "--preprocessor-arg=" <= a then Some(a[19..])
    else if "-D" < a || "-U" < a then Some(a)
    else if a == "--preprocessor-arg" && more then Some(argv[i + 1])
    else if (a == "-D" || a == "--define") && more then Some("-D" + argv[i + 1])
    else if (a == "-U" || a == "--undefine") && more then Some("-U" + argv[i + 1])
    else None
  }

  /** The value that the argument at `i` gives to a kind of option, if it is of that kind. */
  function GivenAt(argv: seq<string>, i: nat, kind: Kind): Option<string>
    requires i < |argv|
  {
    match kind
    case Named(short, long) => ValueAt(argv, i, short, long)
    case Include => IncludeAt(argv, i)
    case Preprocessing => CppAt(argv, i)
    case PreprocessorCommand =>
      if argv[i] == "--preprocessor" && i + 1 < |argv| then Some(argv[i + 1]) else None
  }

  /** The value of the last option of a kind in front of argument `n`. */
  function Last(argv: seq<string>, n: nat, kind: Kind): Option<string>
    requires n <= |argv|
  {
    if n <= 1 then None
    else if Starts(argv, n - 1) && GivenAt(argv, n - 1, kind).Some? then GivenAt(argv, n - 1, kind)
    else Last(argv, n - 1, kind)
  }

  /** The values of all options of a kind in front of argument `n`, in their order. */
  function All(argv: seq<string>, n: nat, kind: Kind): seq<string>
    requires n <= |argv|
  {
    if n <= 1 then []
    else if Starts(argv, n - 1) && GivenAt(argv, n - 1, kind).Some? then
      All(argv, n - 1, kind) + [GivenAt(argv, n - 1, kind).value]
    else All(argv, n - 1, kind)
  }

  function Or(value: Option<string>, default: string): string {
    if value.Some? then value.value else default
  }

  /** The input named in front of argument `n`: by the last option for it, or an operand while it is "-". */
  function InputBefore(argv: seq<string>, n: nat): string
    requires n <= |argv|
  {
    if n <= 1 then "-"
    else
      var before := InputBefore(argv, n - 1);
      if !Starts(argv, n - 1) then before
      else if before == "-" && IsOperand(argv[n - 1]) then argv[n - 1]
      else Or(ValueAt(argv, n - 1, "-i", "--input"), before)
  }

  /** The output: by the last option for it, or an operand that is not for the input while it is the default. */
  function OutputBefore(argv: seq<string>, n: nat): string
    requires n <= |argv|
  {
    if n <= 1 then "/dev/stdout"
    else
      var before := OutputBefore(argv, n - 1);
      if !Starts(argv, n - 1) then before
      else if before == "/dev/stdout" && InputBefore(argv, n - 1) != "-" && IsOperand(argv[n - 1]) then argv[n - 1]
      else Or(ValueAt(argv, n - 1, "-o", "--output"), before)
  }

  /** The options say what the arguments in front of `n` name. */
  predicate Says(argv: seq<string>, n: nat, o: Options)
    requires n <= |argv|
  {
    && o.input == InputBefore(argv, n) && o.output == OutputBefore(argv, n)
    && o.inputFormat == Or(Last(argv, n, Named("-J", "--input-format")), "rc")
    && o.outputFormat == Or(Last(argv, n, Named("-O", "--output-format")), "coff")
    && o.bfdTarget == Last(argv, n, Named("-F", "--target"))
    && o.codepage == Or(Last(argv, n, Named("-c", "--codepage")), "1252")
    && o.language == Last(argv, n, Named("-l", "--language"))
    && o.preprocessor == Last(argv, n, PreprocessorCommand)
    && o.includes == All(argv, n, Include) && o.cppOptions == All(argv, n, Preprocessing)
  }

  // ----- One argument -----

  lemma MatchIff(argv: seq<string>, i: nat, short: string, long: string)
    requires i < |argv| && IsOption(short, long)
    ensures MatchOption(argv, i, short, long).NoMatch? <==> Name(argv[i]) != short && Name(argv[i]) != long
  {
    hide Name;
    SpelledIff(argv[i], short, long);
  }

  /** What the action found at an argument gives to a field. */
  function Assigned(p: Parsed, field: Field): Option<string> {
    if p.action.Assign? && p.action.field == field then Some(p.action.v) else None
  }

  /** An argument that is none of the first options. */
  predicate IsLater(argv: seq<string>, i: nat)
    requires i < |argv|
  {
    Name(argv[i]) !in {"-i", "--input", "-o", "--output", "-J", "--input-format", "-O", "--output-format", "-F",
                       "--target"}
  }

  lemma FirstOptions(argv: seq<string>, i: nat)
    requires i < |argv|
    ensures var p := Classify(argv, i);
      && ValueAt(argv, i, "-i", "--input") == Assigned(p, Input)
      && ValueAt(argv, i, "-o", "--output") == Assigned(p, Output)
      && ValueAt(argv, i, "-J", "--input-format") == Assigned(p, InputFormat)
      && ValueAt(argv, i, "-O", "--output-format") == Assigned(p, OutputFormat)
      && ValueAt(argv, i, "-F", "--target") == Assigned(p, Target)
      && (IsLater(argv, i) ==> p == ClassifyInclude(argv, i))
      && (!IsLater(argv, i) ==>
            || p.action == Quit(1)
            || (p.action.Assign? && p.action.field in {Input, Output, InputFormat, OutputFormat, Target}))
  {
    hide Name, MatchOption, ClassifyInclude;
    LaterFields(argv, i);
    MatchIff(argv, i, "-i", "--input");
    MatchIff(argv, i, "-o", "--output");
    MatchIff(argv, i, "-J", "--input-format");
    MatchIff(argv, i, "-O", "--output-format");
    MatchIff(argv, i, "-F", "--target");
  }

  predicate IsCppField(field: Field) {
    field.Preprocessor? || field.Cpp?
  }

  lemma CppFields(argv: seq<string>, i: nat)
    requires i < |argv|
    ensures var p := ClassifyCpp(argv, i); p.action.Assign? ==> IsCppField(p.action.field)
  {
  }

  lemma LaterFields(argv: seq<string>, i: nat)
    requires i < |argv|
    ensures var p := ClassifyInclude(argv, i);
      p.action.Assign? ==> IsCppField(p.action.field) || p.action.field in {IncludeDir, Codepage, Language}
  {
    hide MatchOption, ClassifyCpp, IsCppField;
    CppFields(argv, i);
  }

  lemma IncludeForms(argv: seq<string>, i: nat)
    requires i < |argv|
    ensures Spelled(argv[i], "-I", "--include-dir") || Spelled(argv[i], "-I", "--include") ==>
      && Assigned(ClassifyInclude(argv, i), IncludeDir) == IncludeAt(argv, i)
      && match ClassifyInclude(argv, i).action
         case Assign(field, _) => field == IncludeDir
         case action => action == Quit(1)
    ensures !Spelled(argv[i], "-I", "--include-dir") && !Spelled(argv[i], "-I", "--include") ==>
      && IncludeAt(argv, i) == None
      && ClassifyInclude(argv, i) == OrElse(MatchOption(argv, i, "-c", "--codepage"), Codepage,
                                     OrElse(MatchOption(argv, i, "-l", "--language"), Language,
                                     ClassifyCpp(argv, i)))
  {
    hide Name, ClassifyCpp;
    var a := argv[i];
    assert "--include-dir=" <= a ==> a[1] == '-' && a[9] == '-';
    assert "--include=" <= a ==> a[1] == '-' && a[9] == '=';
    assert "-I" <= a ==> a[1] == 'I';
  }

  /** What the action found at an argument adds to the options for the preprocessor. */
  function Added(p: Parsed): Option<string> {
    if p.action.Assign? && p.action.field.Cpp? then Some(p.action.field.prefix + p.action.v) else None
  }

  function CommandAt(argv: seq<string>, i: nat): Option<string>
    requires i < |argv|
  {
    GivenAt(argv, i, PreprocessorCommand)
  }

  lemma CppForms(argv: seq<string>, i: nat)
    requires i < |argv|
    ensures var p := ClassifyCpp(argv, i);
      !p.action.Quit? ==> CppAt(argv, i) == Added(p) && CommandAt(argv, i) == Assigned(p, Preprocessor)
  {
    NothingInFront(argv[i]);
    NothingInFront(if "--preprocessor-arg=" <= argv[i] then argv[i][19..] else "");
    NothingInFront(if i + 1 < |argv| then argv[i + 1] else "");
    hide ClassifyCpp, CppAt, GivenAt;
    if argv[i] == "" || argv[i][0] != '-' {
      OperandForms(argv, i);
    } else if |argv[i]| >= 2 && argv[i][1] == '-' {
      LongForms(argv, i);
    } else {
      ShortForms(argv, i);
    }
  }

  lemma OperandForms(argv: seq<string>, i: nat)
    requires i < |argv| && IsOperand(argv[i])
    ensures CppAt(argv, i) == None && CommandAt(argv, i) == None
    ensures ClassifyCpp(argv, i) == Parsed(Operand(argv[i]), i)
  {
    assert argv[i] == "" || argv[i][0] != '-';
  }

  lemma ShortForms(argv: seq<string>, i: nat)
    requires i < |argv| && "-" <= argv[i] && (|argv[i]| == 1 || argv[i][1] != '-')
    ensures var p, a := ClassifyCpp(argv, i), argv[i];
      && CommandAt(argv, i) == None
      && if a == "-D" || a == "-U" then
           if i + 1 < |argv| then
             CppAt(argv, i) == Some(a + argv[i + 1]) && p == Parsed(Assign(Cpp(a), argv[i + 1]), i + 1)
           else p.action.Quit?
         else if "-D" <= a || "-U" <= a then CppAt(argv, i) == Some(a) && p == Parsed(Assign(Cpp(""), a), i)
         else CppAt(argv, i) == None && !p.action.Assign?
  {
    var a := argv[i];
    assert |a| >= 2 ==> a[1] != '-';
  }

  lemma LongForms(argv: seq<string>, i: nat)
    requires i < |argv| && "--" <= argv[i]
    ensures var p, a := ClassifyCpp(argv, i), argv[i];
      if a == "--preprocessor" && i + 1 < |argv| then
        && CommandAt(argv, i) == Some(argv[i + 1]) && CppAt(argv, i) == None
        && p == Parsed(Assign(Preprocessor, argv[i + 1]), i + 1)
      else
        && CommandAt(argv, i) == None
        && (!p.action.Quit? ==> CppAt(argv, i) == Added(p) && (p.action.Assign? ==> p.action.field.Cpp?))
  {
    var a := argv[i];
    assert a[1] == '-';
    NothingInFront(if "--preprocessor-arg=" <= a then a[19..] else "");
    NothingInFront(if i + 1 < |argv| then argv[i + 1] else "");
  }

  lemma NothingInFront(s: string)
    ensures "" + s == s
  {
  }

  predicate IsCppName(name: string) {
    name in {"--preprocessor", "--preprocessor-arg", "-D", "--define", "-U", "--undefine"}
  }

  lemma CppName(argv: seq<string>, i: nat)
    requires i < |argv|
    ensures CppAt(argv, i).Some? || CommandAt(argv, i).Some? ==> IsCppName(Name(argv[i]))
  {
    hide Name;
    var a := argv[i];
    SpelledIff(a, "-D", "--define");
    SpelledIff(a, "-U", "--undefine");
    if a == "--preprocessor" {
      LongName(a, "--preprocessor");
    } else if "--preprocessor-arg" <= a {
      assert "--preprocessor-arg=" == "--preprocessor-arg" + "=";
      if "--preprocessor-arg=" <= a || a == "--preprocessor-arg" {
        LongName(a, "--preprocessor-arg");
      }
    }
  }

  lemma LongName(a: string, long: string)
    requires IsOption("-p", long) && (a == long || long + "=" <= a)
    ensures Name(a) == long
  {
    assert a[0] == long[0] && a[1] == long[1];
    UpToIs(long, if a == long then "" else a[|long| + 1..], '=');
    assert a != long ==> a == long + ['='] + a[|long| + 1..];
  }

  predicate IsLaterName(name: string) {
    name in {"-I", "--include-dir", "--include", "-c", "--codepage", "-l", "--language"}
  }

  lemma IncludeNames(argv: seq<string>, i: nat)
    requires i < |argv|
    ensures Name(argv[i]) in {"-I", "--include-dir", "--include"}
       <==> Spelled(argv[i], "-I", "--include-dir") || Spelled(argv[i], "-I", "--include")
  {
    hide Name;
    SpelledIff(argv[i], "-I", "--include-dir");
    SpelledIff(argv[i], "-I", "--include");
  }

  /** The values for the later fields. */
  predicate LaterAgree(argv: seq<string>, i: nat, p: Parsed)
    requires i < |argv|
  {
    && IncludeAt(argv, i) == Assigned(p, IncludeDir)
    && ValueAt(argv, i, "-c", "--codepage") == Assigned(p, Codepage)
    && ValueAt(argv, i, "-l", "--language") == Assigned(p, Language)
    && CppAt(argv, i) == Added(p) && CommandAt(argv, i) == Assigned(p, Preprocessor)
  }

  lemma LaterOptions(argv: seq<string>, i: nat)
    requires i < |argv|
    ensures var p := ClassifyInclude(argv, i);
      && (!p.action.Quit? ==> LaterAgree(argv, i, p))
      && (!IsLaterName(Name(argv[i])) ==> p == ClassifyCpp(argv, i))
  {
    hide Name, MatchOption, ClassifyCpp, ClassifyInclude, IncludeAt, CppAt, GivenAt, Spelled;
    IncludeForms(argv, i);
    IncludeNames(argv, i);
    CppForms(argv, i);
    CppFields(argv, i);
    CppName(argv, i);
    MatchIff(argv, i, "-c", "--codepage");
    MatchIff(argv, i, "-l", "--language");
  }

  /** The later fields get nothing from one of the first options. */
  lemma NotLater(argv: seq<string>, i: nat)
    requires i < |argv| && !IsLater(argv, i)
    ensures IncludeAt(argv, i) == None && CppAt(argv, i) == None && CommandAt(argv, i) == None
    ensures ValueAt(argv, i, "-c", "--codepage") == None && ValueAt(argv, i, "-l", "--language") == None
  {
    hide Name, MatchOption, ClassifyCpp, ClassifyInclude, IncludeAt, CppAt, GivenAt, Spelled;
    IncludeForms(argv, i);
    IncludeNames(argv, i);
    CppName(argv, i);
    MatchIff(argv, i, "-c", "--codepage");
    MatchIff(argv, i, "-l", "--language");
  }

  predicate FirstAgree(argv: seq<string>, i: nat, p: Parsed)
    requires i < |argv|
  {
    && ValueAt(argv, i, "-i", "--input") == Assigned(p, Input)
    && ValueAt(argv, i, "-o", "--output") == Assigned(p, Output)
    && ValueAt(argv, i, "-J", "--input-format") == Assigned(p, InputFormat)
    && ValueAt(argv, i, "-O", "--output-format") == Assigned(p, OutputFormat)
    && ValueAt(argv, i, "-F", "--target") == Assigned(p, Target)
  }

  /** What an argument gives is what the action found there assigns. */
  lemma OptionsAgree(argv: seq<string>, i: nat)
    requires i < |argv| && !Classify(argv, i).action.Quit?
    ensures FirstAgree(argv, i, Classify(argv, i)) && LaterAgree(argv, i, Classify(argv, i))
  {
    hide Name, MatchOption, ClassifyInclude, IncludeAt, CppAt, GivenAt, Classify, IsLater;
    FirstOptions(argv, i);
    if IsLater(argv, i) {
      LaterOptions(argv, i);
    } else {
      NotLater(argv, i);
    }
  }

  // ----- How far an argument reaches, and what is refused -----

  /** The options that may stand in one argument with their value. */
  predicate IsJoinable(name: string) {
    name in {"-i", "--input", "-o", "--output", "-J", "--input-format", "-O", "--output-format", "-F", "--target",
             "-I", "--include-dir", "--include", "-c", "--codepage", "-l", "--language", "--preprocessor-arg",
             "-D", "-U"}
  }

  predicate Joined(a: string) {
    a != Name(a) && IsJoinable(Name(a))
  }

  predicate IsSwitch(a: string) {
    a in {"-v", "--verbose", "--use-temp-file"}
  }

  predicate Known(a: string) {
    IsOperand(a) || Takes(a) || Joined(a) || IsSwitch(a)
  }

  /** What an action does, but for the value it gives. */
  predicate Reaches(argv: seq<string>, i: nat, p: Parsed)
    requires i < |argv|
  {
    var a := argv[i];
    if Takes(a) then
      if i + 1 < |argv| then p.action.Assign? && p.last == i + 1 else p.action == Quit(1)
    else if Joined(a) then p.action.Assign? && p.last == i
    else if IsOperand(a) then p == Parsed(Operand(a), i)
    else if a in {"-v", "--verbose"} then p == Parsed(SetVerbose, i)
    else if a == "--use-temp-file" then p == Parsed(Ignore, i)
    else p.action == Quit(if a in {"-V", "--version", "-h", "--help"} then 0 else 1)
  }

  lemma TakesForm(a: string)
    requires Takes(a)
    ensures |a| >= 2 && a[0] == '-' && '=' !in a && (a[1] != '-' ==> |a| == 2)
  {
  }

  lemma TakesIsName(a: string)
    requires Takes(a)
    ensures Name(a) == a
  {
    TakesForm(a);
    UpToIs(a, "", '=');
  }

  lemma NamedReaches(argv: seq<string>, i: nat, short: string, long: string, field: Field, next: Parsed)
    requires i < |argv| && IsOption(short, long) && Name(argv[i]) in {short, long}
    requires Takes(short) && Takes(long) && IsJoinable(short) && IsJoinable(long)
    ensures Reaches(argv, i, OrElse(MatchOption(argv, i, short, long), field, next))
  {
    hide Name, Takes, IsJoinable;
    var a := argv[i];
    SpelledIff(a, short, long);
    TakesIsName(short);
    TakesIsName(long);
    if Takes(a) {
      TakesIsName(a);
      assert !(short < a) by {
        TakesForm(a);
      }
    }
  }

  lemma FirstReaches(argv: seq<string>, i: nat)
    requires i < |argv| && !IsLater(argv, i)
    ensures Reaches(argv, i, Classify(argv, i))
  {
    hide Name, MatchOption, ClassifyInclude, Reaches;
    MatchIff(argv, i, "-i", "--input");
    MatchIff(argv, i, "-o", "--output");
    MatchIff(argv, i, "-J", "--input-format");
    MatchIff(argv, i, "-O", "--output-format");
    MatchIff(argv, i, "-F", "--target");
    var next := ClassifyInclude(argv, i);
    if Name(argv[i]) in {"-F", "--target"} {
      NamedReaches(argv, i, "-F", "--target", Target, next);
    }
    next := OrElse(MatchOption(argv, i, "-F", "--target"), Target, next);
    if Name(argv[i]) in {"-O", "--output-format"} {
      NamedReaches(argv, i, "-O", "--output-format", OutputFormat, next);
    }
    next := OrElse(MatchOption(argv, i, "-O", "--output-format"), OutputFormat, next);
    if Name(argv[i]) in {"-J", "--input-format"} {
      NamedReaches(argv, i, "-J", "--input-format", InputFormat, next);
    }
    next := OrElse(MatchOption(argv, i, "-J", "--input-format"), InputFormat, next);
    if Name(argv[i]) in {"-o", "--output"} {
      NamedReaches(argv, i, "-o", "--output", Output, next);
    }
    next := OrElse(MatchOption(argv, i, "-o", "--output"), Output, next);
    if Name(argv[i]) in {"-i", "--input"} {
      NamedReaches(argv, i, "-i", "--input", Input, next);
    }
  }

  lemma IncludeReaches(argv: seq<string>, i: nat)
    requires i < |argv| && Name(argv[i]) in {"-I", "--include-dir", "--include"}
    ensures Reaches(argv, i, ClassifyInclude(argv, i))
  {
    hide Name, ClassifyCpp, MatchOption, OrElse;
    var a := argv[i];
    IncludeNames(argv, i);
    if a in {"-I", "--include-dir", "--include"} {
      SeparateReaches(argv, i, IncludeDir);
    } else {
      if Takes(a) {
        TakesIsName(a);
      }
    }
  }

  lemma SeparateReaches(argv: seq<string>, i: nat, field: Field)
    requires i < |argv| && Takes(argv[i])
    ensures Reaches(argv, i, OrElse(Separate(argv, i), field, Parsed(Ignore, i)))
  {
    hide Takes;
  }

  /** An argument that is none of the named options. */
  lemma CppReaches(argv: seq<string>, i: nat)
    requires i < |argv| && IsLater(argv, i) && !IsLaterName(Name(argv[i]))
    ensures Reaches(argv, i, ClassifyCpp(argv, i))
  {
    hide ClassifyCpp, Reaches, Name, Takes;
    if IsOperand(argv[i]) {
      OperandForms(argv, i);
      OperandReaches(argv, i);
    } else if |argv[i]| >= 2 && argv[i][1] == '-' {
      LongReaches(argv, i);
    } else {
      ShortReaches(argv, i);
    }
  }

  lemma JoinableForm(name: string)
    requires IsJoinable(name)
    ensures name != "" && name[0] == '-'
  {
  }

  lemma OperandReaches(argv: seq<string>, i: nat)
    requires i < |argv| && IsOperand(argv[i])
    ensures Reaches(argv, i, Parsed(Operand(argv[i]), i))
  {
    hide Takes, IsJoinable;
    var a := argv[i];
    if Takes(a) {
      TakesForm(a);
    } else if Joined(a) {
      JoinableForm(Name(a));
      assert Name(a) == UpTo(a, '=');
    }
  }

  lemma CppTakes(argv: seq<string>, i: nat)
    requires i < |argv| && IsLater(argv, i) && !IsLaterName(Name(argv[i]))
    ensures Takes(argv[i]) <==> IsCppName(argv[i])
    ensures Joined(argv[i]) <==> argv[i] != Name(argv[i]) && Name(argv[i]) in {"--preprocessor-arg", "-D", "-U"}
  {
    hide Name;
    if Takes(argv[i]) {
      TakesIsName(argv[i]);
    }
  }

  lemma ShortReaches(argv: seq<string>, i: nat)
    requires i < |argv| && "-" <= argv[i] && (|argv[i]| == 1 || argv[i][1] != '-')
    requires IsLater(argv, i) && !IsLaterName(Name(argv[i]))
    ensures Reaches(argv, i, ClassifyCpp(argv, i))
  {
    CppTakes(argv, i);
    ShortName(argv[i]);
    hide Takes, Joined, IsLater, IsLaterName, Name;
    assert |argv[i]| >= 2 ==> argv[i][1] != '-';
  }

  lemma ShortName(a: string)
    requires "-" <= a && (|a| == 1 || a[1] != '-')
    ensures Name(a) == a || (|a| > 2 && Name(a) == a[..2])
    ensures "-D" <= a <==> Name(a) == "-D"
    ensures "-U" <= a <==> Name(a) == "-U"
    ensures Name(a) != "--preprocessor-arg"
  {
    if |a| == 1 {
      UpToIs(a, "", '=');
    } else if |a| == 2 {
      assert a[..2] == a;
    }
  }

  lemma LongIsNotShort(a: string)
    requires "--" <= a
    ensures !("-D" <= a) && !("-U" <= a) && a !in {"-D", "-U", "-v", "-V", "-h"} && "-" <= a && !IsOperand(a)
  {
    assert a[1] == '-';
  }

  lemma LongReaches(argv: seq<string>, i: nat)
    requires i < |argv| && "--" <= argv[i]
    requires IsLater(argv, i) && !IsLaterName(Name(argv[i]))
    ensures Reaches(argv, i, ClassifyCpp(argv, i))
  {
    hide *;
    CppTakes(argv, i);
    NameOfLong(argv[i]);
    LongIsNotShort(argv[i]);
    if IsCppName(argv[i]) {
      var field := SeparateCpp(argv, i);
      SeparateReaches(argv, i, field);
    } else if "--preprocessor-arg=" <= argv[i] {
      JoinedCpp(argv, i);
    } else {
      OtherCpp(argv, i);
    }
  }

  lemma SeparateCpp(argv: seq<string>, i: nat) returns (field: Field)
    requires i < |argv| && IsCppName(argv[i])
    ensures ClassifyCpp(argv, i) == OrElse(Separate(argv, i), field, Parsed(Ignore, i))
  {
    hide OrElse, Separate;
    var a := argv[i];
    field := if a == "--preprocessor" then Preprocessor
      else if a == "--preprocessor-arg" then Cpp("")
      else if a == "-D" || a == "--define" then Cpp("-D")
      else Cpp("-U");
    assert |a| < |"--preprocessor-arg="|;
    assert a != "-D" ==> a[1] != 'D';
  }

  lemma JoinedCpp(argv: seq<string>, i: nat)
    requires i < |argv| && "--preprocessor-arg=" <= argv[i]
    requires !Takes(argv[i]) && Joined(argv[i])
    ensures Reaches(argv, i, ClassifyCpp(argv, i))
  {
    hide Takes, Joined;
    assert argv[i] != "--preprocessor";
  }

  lemma OtherCpp(argv: seq<string>, i: nat)
    requires i < |argv| && !IsCppName(argv[i]) && !("--preprocessor-arg=" <= argv[i])
    requires !Takes(argv[i]) && !Joined(argv[i]) && !IsOperand(argv[i])
    requires !("-D" <= argv[i]) && !("-U" <= argv[i]) && "-" <= argv[i]
    ensures Reaches(argv, i, ClassifyCpp(argv, i))
  {
    hide Takes, Joined, IsOperand;
  }

  lemma NameOfLong(a: string)
    requires "--" <= a
    ensures Name(a) == "--preprocessor-arg" <==> a == "--preprocessor-arg" || "--preprocessor-arg=" <= a
    ensures a == "--preprocessor-arg" ==> Name(a) == a
    ensures Name(a) != "-D" && Name(a) != "-U"
  {
    hide Name;
    assert a[1] == '-';
    assert "--preprocessor-arg" + "=" == "--preprocessor-arg=";
    SpelledIff(a, "-D", "--preprocessor-arg");
    SpelledIff(a, "-U", "--preprocessor-arg");
    if a == "--preprocessor-arg" || "--preprocessor-arg=" <= a {
      LongName(a, "--preprocessor-arg");
    }
  }

  lemma ClassifyReaches(argv: seq<string>, i: nat)
    requires i < |argv|
    ensures Reaches(argv, i, Classify(argv, i))
  {
    hide *;
    FirstOptions(argv, i);
    LaterOptions(argv, i);
    if !IsLater(argv, i) {
      FirstReaches(argv, i);
    } else if !IsLaterName(Name(argv[i])) {
      CppReaches(argv, i);
    } else {
      LaterReaches(argv, i);
    }
  }

  lemma LaterReaches(argv: seq<string>, i: nat)
    requires i < |argv| && IsLaterName(Name(argv[i]))
    ensures Reaches(argv, i, ClassifyInclude(argv, i))
  {
    hide Name, MatchOption, ClassifyCpp, ClassifyInclude, IncludeAt, Reaches, Spelled;
    if Name(argv[i]) in {"-I", "--include-dir", "--include"} {
      IncludeReaches(argv, i);
    } else {
      IncludeForms(argv, i);
      IncludeNames(argv, i);
      MatchIff(argv, i, "-c", "--codepage");
      var next := ClassifyCpp(argv, i);
      if Name(argv[i]) in {"-l", "--language"} {
        NamedReaches(argv, i, "-l", "--language", Language, next);
      } else {
        next := OrElse(MatchOption(argv, i, "-l", "--language"), Language, next);
        NamedReaches(argv, i, "-c", "--codepage", Codepage, next);
      }
    }
  }

  // ----- From one option to the next -----

  /** The next option or operand behind the one at `i`, or the end. */
  predicate IsNext(argv: seq<string>, i: nat, n: nat) {
    && 1 <= i < |argv| && Starts(argv, i) && n <= |argv|
    && (n == i + 1 || (n == i + 2 && !Starts(argv, i + 1)))
  }

  lemma LastStep(argv: seq<string>, i: nat, n: nat, kind: Kind)
    requires IsNext(argv, i, n)
    ensures var given := GivenAt(argv, i, kind);
      Last(argv, n, kind) == if given.Some? then given else Last(argv, i, kind)
  {
    hide GivenAt, Starts;
  }

  lemma AllStep(argv: seq<string>, i: nat, n: nat, kind: Kind)
    requires IsNext(argv, i, n)
    ensures var given := GivenAt(argv, i, kind);
      All(argv, n, kind) == All(argv, i, kind) + if given.Some? then [given.value] else []
  {
    hide GivenAt, Starts;
    assert All(argv, i, kind) + [] == All(argv, i, kind);
  }

  lemma InputStep(argv: seq<string>, i: nat, n: nat)
    requires IsNext(argv, i, n)
    ensures var before := InputBefore(argv, i);
      InputBefore(argv, n) == if before == "-" && IsOperand(argv[i]) then argv[i]
        else Or(ValueAt(argv, i, "-i", "--input"), before)
  {
    hide ValueAt, Starts;
  }

  lemma OutputStep(argv: seq<string>, i: nat, n: nat)
    requires IsNext(argv, i, n)
    ensures var before := OutputBefore(argv, i);
      OutputBefore(argv, n)
        == if before == "/dev/stdout" && InputBefore(argv, i) != "-" && IsOperand(argv[i]) then argv[i]
           else Or(ValueAt(argv, i, "-o", "--output"), before)
  {
    hide ValueAt, Starts, InputBefore;
  }

  /** An argument that is neither unknown, cut short, nor an operand that there is no use for. */
  predicate Fine(argv: seq<string>, i: nat)
    requires i < |argv|
  {
    var a := argv[i];
    && Known(a) && (Takes(a) ==> i + 1 < |argv|)
    && (IsOperand(a) ==> InputBefore(argv, i) == "-" || OutputBefore(argv, i) == "/dev/stdout")
  }

  predicate AsksForText(a: string) {
    a in {"-V", "--version", "-h", "--help"}
  }

  lemma NoOperand(a: string)
    ensures Takes(a) || Joined(a) || IsSwitch(a) || AsksForText(a) ==> !IsOperand(a)
  {
    hide Takes, IsJoinable;
    if Takes(a) {
      TakesForm(a);
    } else if Joined(a) {
      JoinableForm(Name(a));
      assert IsOperand(a) ==> Name(a) == UpTo(a, '=');
    }
  }

  lemma TextTakesNothing(a: string)
    ensures AsksForText(a) ==> !Takes(a)
  {
  }

  lemma ActionOf(argv: seq<string>, i: nat)
    requires i < |argv|
    ensures var a, p := argv[i], Classify(argv, i);
      && (p.action.Operand? <==> IsOperand(a)) && (p.action.Operand? ==> p.action.v == a && p.last == i)
      && (p.action.Quit? <==> !Known(a) || (Takes(a) && i + 1 >= |argv|))
      && (p.action.Quit? ==> p.action.code == if AsksForText(a) then 0 else 1)
      && (!p.action.Quit? ==> p.last == if Takes(a) then i + 1 else i)
  {
    ClassifyReaches(argv, i);
    NoOperand(argv[i]);
    TextTakesNothing(argv[i]);
    hide Classify, Takes, Joined, IsOperand;
  }

  lemma KnownOperand(a: string)
    ensures IsOperand(a) ==> Known(a) && !Takes(a) && !AsksForText(a)
  {
    NoOperand(a);
  }

  lemma ApplyIs(o: Options, action: Action)
    ensures var r := Apply(o, action);
      && (r.Err? <==> action.Quit? || (action.Operand? && o.input != "-" && o.output != "/dev/stdout"))
      && (r.Err? ==> r.error == if action.Quit? then action.code else 1)
  {
  }

  lemma ApplyIff(argv: seq<string>, i: nat, o: Options)
    requires 1 <= i < |argv| && o.input == InputBefore(argv, i) && o.output == OutputBefore(argv, i)
    ensures var r := Apply(o, Classify(argv, i).action);
      && (r.Ok? <==> Fine(argv, i))
      && (r.Err? ==> r.error == if AsksForText(argv[i]) then 0 else 1)
  {
    hide Classify, Apply, Takes, Known, IsOperand, AsksForText, InputBefore, OutputBefore;
    ActionOf(argv, i);
    KnownOperand(argv[i]);
    ApplyIs(o, Classify(argv, i).action);
  }

  function Listed(value: Option<string>): seq<string> {
    if value.Some? then [value.value] else []
  }

  function OrElseOf(value: Option<string>, default: Option<string>): Option<string> {
    if value.Some? then value else default
  }

  /** What an action does to the options, field by field. */
  predicate Changes(o: Options, p: Parsed, o': Options) {
    && o'.input == (if o.input == "-" && p.action.Operand? then p.action.v else Or(Assigned(p, Input), o.input))
    && o'.output == (if o.output == "/dev/stdout" && o.input != "-" && p.action.Operand? then p.action.v
                     else Or(Assigned(p, Output), o.output))
    && o'.inputFormat == Or(Assigned(p, InputFormat), o.inputFormat)
    && o'.outputFormat == Or(Assigned(p, OutputFormat), o.outputFormat)
    && o'.bfdTarget == OrElseOf(Assigned(p, Target), o.bfdTarget)
    && o'.codepage == Or(Assigned(p, Codepage), o.codepage)
    && o'.language == OrElseOf(Assigned(p, Language), o.language)
    && o'.preprocessor == OrElseOf(Assigned(p, Preprocessor), o.preprocessor)
    && o'.includes == o.includes + Listed(Assigned(p, IncludeDir))
    && o'.cppOptions == o.cppOptions + Listed(Added(p))
  }

  lemma ApplyChanges(o: Options, p: Parsed, o': Options)
    requires Apply(o, p.action) == Ok(o')
    ensures Changes(o, p, o')
  {
    assert o.includes + [] == o.includes && o.cppOptions + [] == o.cppOptions;
    if p.action.Assign? {
      SetChanges(o, p);
    }
  }

  lemma SetChanges(o: Options, p: Parsed)
    requires p.action.Assign?
    ensures Changes(o, p, Set(o, p.action.field, p.action.v))
  {
    assert o.includes + [] == o.includes && o.cppOptions + [] == o.cppOptions;
    hide Or;
    match p.action.field
    case Input =>
    case Output =>
    case InputFormat =>
    case OutputFormat =>
    case Target =>
    case IncludeDir =>
    case Codepage =>
    case Language =>
    case Preprocessor =>
    case Cpp(_) =>
  }

  lemma NextIs(argv: seq<string>, i: nat)
    requires 1 <= i < |argv| && Starts(argv, i) && !Classify(argv, i).action.Quit?
    ensures IsNext(argv, i, Classify(argv, i).last + 1) && Starts(argv, Classify(argv, i).last + 1)
  {
    hide Classify, Takes, Known, IsOperand, AsksForText;
    ActionOf(argv, i);
    ClassifyAdvances(argv, i);
    if Takes(argv[i]) {
      assert !Starts(argv, i + 1);
    }
  }

  lemma StillSays(argv: seq<string>, i: nat, o: Options, o': Options)
    requires 1 <= i < |argv| && Starts(argv, i) && Says(argv, i, o) && Apply(o, Classify(argv, i).action) == Ok(o')
    ensures var n := Classify(argv, i).last + 1;
      IsNext(argv, i, n) && Starts(argv, n) && Says(argv, n, o')
  {
    hide *;
    var p := Classify(argv, i);
    var n := p.last + 1;
    ApplyIs(o, p.action);
    NextIs(argv, i);
    OptionsAgree(argv, i);
    ActionOf(argv, i);
    ApplyChanges(o, p, o');
    Carried(argv, i, n, o, p, o');
  }

  lemma Carried(argv: seq<string>, i: nat, n: nat, o: Options, p: Parsed, o': Options)
    requires IsNext(argv, i, n) && Says(argv, i, o) && Changes(o, p, o')
    requires FirstAgree(argv, i, p) && LaterAgree(argv, i, p)
    requires (p.action.Operand? <==> IsOperand(argv[i])) && (p.action.Operand? ==> p.action.v == argv[i])
    ensures Says(argv, n, o')
  {
    hide IsNext, Last, All, InputBefore, OutputBefore, ValueAt, IncludeAt, CppAt, Assigned, Added, IsOperand;
    InputStep(argv, i, n);
    OutputStep(argv, i, n);
    LastStep(argv, i, n, Named("-J", "--input-format"));
    LastStep(argv, i, n, Named("-O", "--output-format"));
    LastStep(argv, i, n, Named("-F", "--target"));
    LastStep(argv, i, n, Named("-c", "--codepage"));
    LastStep(argv, i, n, Named("-l", "--language"));
    LastStep(argv, i, n, PreprocessorCommand);
    AllStep(argv, i, n, Include);
    AllStep(argv, i, n, Preprocessing);
  }

  predicate AllFine(argv: seq<string>, i: nat, n: nat) {
    forall k :: i <= k < n && k < |argv| && Starts(argv, k) ==> Fine(argv, k)
  }

  /** The first argument from `i` on that is not fine, and the exit code for it. */
  predicate Refuses(argv: seq<string>, i: nat, k: nat, code: int) {
    && i <= k < |argv| && Starts(argv, k) && !Fine(argv, k) && AllFine(argv, i, k)
    && code == if AsksForText(argv[k]) then 0 else 1
  }

  lemma FineBetween(argv: seq<string>, i: nat, n: nat, m: nat)
    requires IsNext(argv, i, n) && Fine(argv, i)
    ensures AllFine(argv, i, m) <==> AllFine(argv, n, m)
  {
    hide Fine, Starts;
    assert AllFine(argv, i, m) ==> AllFine(argv, n, m);
    forall k | i <= k < m && k < |argv| && Starts(argv, k) && AllFine(argv, n, m)
      ensures Fine(argv, k)
    {
      assert k == i || k >= n;
    }
  }

  /** The arguments from `i` on, when those in front of it have been read as they say. */
  lemma {:induction false} RestSays(argv: seq<string>, i: nat, o: Options)
    requires 1 <= i <= |argv| && Starts(argv, i) && Says(argv, i, o)
    ensures var r := ParseFrom(argv, i, o);
      && (r.Ok? <==> AllFine(argv, i, |argv|))
      && (r.Ok? ==> Says(argv, |argv|, r.value))
      && (r.Err? ==> exists k :: Refuses(argv, i, k, r.error))
    decreases |argv| - i
  {
    hide *;
    if i == |argv| {
      NothingLeft(argv, o);
    } else {
      var r := ParseOne(argv, i, o);
      FilesSaid(argv, i, o);
      ApplyIff(argv, i, o);
      if r.Err? {
        RefusedHere(argv, i, r.error);
      } else {
        var n := Classify(argv, i).last + 1;
        StillSays(argv, i, o, r.value);
        FineBetween(argv, i, n, |argv|);
        NextIsLater(argv, i, n);
        RestSays(argv, n, r.value);
        RefusedLater(argv, i, n, ParseFrom(argv, n, r.value));
      }
    }
  }

  lemma FilesSaid(argv: seq<string>, i: nat, o: Options)
    requires i <= |argv| && Says(argv, i, o)
    ensures o.input == InputBefore(argv, i) && o.output == OutputBefore(argv, i)
  {
  }

  lemma NothingLeft(argv: seq<string>, o: Options)
    ensures ParseFrom(argv, |argv|, o) == Ok(o) && AllFine(argv, |argv|, |argv|)
  {
  }

  lemma ParseOne(argv: seq<string>, i: nat, o: Options) returns (r: Result<Options, int>)
    requires i < |argv|
    ensures r == Apply(o, Classify(argv, i).action)
    ensures ParseFrom(argv, i, o)
         == if r.Err? then Err(r.error) else ParseFrom(argv, Classify(argv, i).last + 1, r.value)
  {
    hide Classify, Apply;
    r := Apply(o, Classify(argv, i).action);
    ClassifyAdvances(argv, i);
  }

  lemma RefusedHere(argv: seq<string>, i: nat, code: int)
    requires i < |argv| && Starts(argv, i) && !Fine(argv, i) && code == if AsksForText(argv[i]) then 0 else 1
    ensures !AllFine(argv, i, |argv|) && exists k :: Refuses(argv, i, k, code)
  {
    hide Starts, Fine, AsksForText;
    assert Refuses(argv, i, i, code);
  }

  lemma NextIsLater(argv: seq<string>, i: nat, n: nat)
    requires IsNext(argv, i, n)
    ensures i < n <= |argv|
  {
  }

  lemma RefusedLater(argv: seq<string>, i: nat, n: nat, r: Result<Options, int>)
    requires IsNext(argv, i, n) && Fine(argv, i)
    requires r.Err? ==> exists k :: Refuses(argv, n, k, r.error)
    ensures r.Err? ==> exists k :: Refuses(argv, i, k, r.error)
  {
    hide Starts, Fine;
    if r.Err? {
      var k :| Refuses(argv, n, k, r.error);
      FineBetween(argv, i, n, k);
      assert Refuses(argv, i, k, r.error);
    }
  }

  lemma DefaultsSay(argv: seq<string>)
    requires argv != []
    ensures Starts(argv, 1) && Says(argv, 1, DEFAULTS)
  {
  }

  /**
    A command line is accepted exactly when every option is known and complete and every
    operand is of use, and then the options hold what its arguments name; otherwise the first
    argument that is refused gives the exit code.
  */
  lemma CommandLineSays(argv: seq<string>)
    requires argv != []
    ensures var r := ParseFrom(argv, 1, DEFAULTS);
      && (r.Ok? <==> AllFine(argv, 1, |argv|))
      && (r.Ok? ==> Says(argv, |argv|, r.value))
      && (r.Err? ==> exists k :: Refuses(argv, 1, k, r.error))
  {
    hide *;
    DefaultsSay(argv);
    RestSays(argv, 1, DEFAULTS);
  }

  // ----- The last one counts -----

  ghost predicate GivesLast(argv: seq<string>, n: nat, kind: Kind, k: nat, v: string)
    requires n <= |argv|
  {
    && 1 <= k < n && Starts(argv, k) && GivenAt(argv, k, kind) == Some(v)
    && forall m :: k < m < n && Starts(argv, m) ==> GivenAt(argv, m, kind) == None
  }

  lemma {:induction false} LastIff(argv: seq<string>, n: nat, kind: Kind, v: string)
    requires n <= |argv|
    ensures Last(argv, n, kind) == Some(v) <==> exists k :: GivesLast(argv, n, kind, k, v)
  {
    hide GivenAt, Starts, GivesLast;
    if n <= 1 {
      GivesNothing(argv, n, kind, v);
    } else {
      var m := n - 1;
      LastIff(argv, m, kind, v);
      GivesLastMore(argv, n, kind, m, v);
      if k :| GivesLast(argv, n, kind, k, v) {
        GivesLastMore(argv, n, kind, k, v);
      } else if k :| GivesLast(argv, m, kind, k, v) {
        GivesLastMore(argv, n, kind, k, v);
      }
    }
  }

  lemma GivesLastMore(argv: seq<string>, n: nat, kind: Kind, k: nat, v: string)
    requires 1 < n <= |argv|
    ensures GivesLast(argv, n, kind, k, v) <==>
      if Starts(argv, n - 1) && GivenAt(argv, n - 1, kind).Some? then
        k == n - 1 && GivenAt(argv, n - 1, kind) == Some(v)
      else GivesLast(argv, n - 1, kind, k, v)
  {
    hide GivenAt, Starts;
  }

  lemma GivesNothing(argv: seq<string>, n: nat, kind: Kind, v: string)
    requires n <= |argv| && n <= 1
    ensures forall k :: !GivesLast(argv, n, kind, k, v)
  {
  }

  lemma OptionIsNoOperand(argv: seq<string>, i: nat, short: string, long: string)
    requires i < |argv| && IsOption(short, long) && ValueAt(argv, i, short, long).Some?
    ensures !IsOperand(argv[i])
  {
    var a := argv[i];
    assert short <= a || long + "=" <= a || a == long;
    assert a[0] == if short <= a then short[0] else long[0];
  }

  /** The last option for the input names it, whatever operands there are, unless it names "-". */
  lemma {:induction false} OptionNamesInput(argv: seq<string>, n: nat, k: nat, v: string)
    requires n <= |argv| && GivesLast(argv, n, Named("-i", "--input"), k, v) && v != "-"
    ensures InputBefore(argv, n) == v
  {
    hide ValueAt, Starts, IsOperand;
    if k == n - 1 {
      OptionIsNoOperand(argv, k, "-i", "--input");
    } else {
      OptionNamesInput(argv, n - 1, k, v);
    }
  }

  /** The last option for the output names it, unless it names the default. */
  lemma {:induction false} OptionNamesOutput(argv: seq<string>, n: nat, k: nat, v: string)
    requires n <= |argv| && GivesLast(argv, n, Named("-o", "--output"), k, v) && v != "/dev/stdout"
    ensures OutputBefore(argv, n) == v
  {
    hide ValueAt, Starts, IsOperand, InputBefore;
    if k == n - 1 {
      OptionIsNoOperand(argv, k, "-o", "--output");
    } else {
      OptionNamesOutput(argv, n - 1, k, v);
    }
  }

  /** No option in front of argument `n` is of this kind. */
  ghost predicate Unnamed(argv: seq<string>, n: nat, kind: Kind)
    requires n <= |argv|
  {
    forall m :: 1 <= m < n && Starts(argv, m) ==> GivenAt(argv, m, kind) == None
  }

  /** How many operands there are in front of argument `n`. */
  function Operands(argv: seq<string>, n: nat): nat
    requires n <= |argv|
  {
    if n <= 1 then 0
    else Operands(argv, n - 1) + if Starts(argv, n - 1) && IsOperand(argv[n - 1]) then 1 else 0
  }

  /** Without an option for it, the input is the first operand. */
  lemma {:induction false} OperandNamesInput(argv: seq<string>, n: nat)
    requires n <= |argv| && Unnamed(argv, n, Named("-i", "--input"))
    ensures Operands(argv, n) == 0 <==> InputBefore(argv, n) == "-"
    ensures forall k :: 1 <= k < n && Starts(argv, k) && IsOperand(argv[k]) && Operands(argv, k) == 0 ==>
      InputBefore(argv, n) == argv[k] != "-"
  {
    hide ValueAt, Starts;
    if n > 1 {
      OperandNamesInput(argv, n - 1);
      assert ValueAt(argv, n - 1, "-i", "--input") == GivenAt(argv, n - 1, Named("-i", "--input"));
    }
  }

  /** Without options for either, the output is the second operand. */
  lemma {:induction false} OperandNamesOutput(argv: seq<string>, n: nat)
    requires n <= |argv| && Unnamed(argv, n, Named("-i", "--input")) && Unnamed(argv, n, Named("-o", "--output"))
    ensures Operands(argv, n) <= 1 ==> OutputBefore(argv, n) == "/dev/stdout"
    ensures forall k :: 1 <= k < n && Starts(argv, k) && IsOperand(argv[k]) && Operands(argv, k) == 1 ==>
      argv[k] != "/dev/stdout" ==> OutputBefore(argv, n) == argv[k]
  {
    hide ValueAt, Starts, InputBefore, IsOperand;
    if n > 1 {
      OperandNamesOutput(argv, n - 1);
      OperandForOutput(argv, n);
    }
  }

  lemma OperandForOutput(argv: seq<string>, n: nat)
    requires 1 < n <= |argv|
    requires Unnamed(argv, n, Named("-i", "--input")) && Unnamed(argv, n, Named("-o", "--output"))
    ensures OutputBefore(argv, n)
         == if Starts(argv, n - 1) && OutputBefore(argv, n - 1) == "/dev/stdout" && Operands(argv, n - 1) > 0
               && IsOperand(argv[n - 1]) then argv[n - 1]
            else OutputBefore(argv, n - 1)
  {
    hide ValueAt, Starts, InputBefore, IsOperand, Operands;
    OperandNamesInput(argv, n - 1);
    assert Starts(argv, n - 1) ==> GivenAt(argv, n - 1, Named("-o", "--output")) == None;
  }
}
