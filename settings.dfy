/**
 * Settings.LoadSettings: a left-to-right scan of the argument list that
 * fills a Settings record, followed by checks of the collected paths.
 * File.Exists is the parameter `fileExists`.
 */
module CommandLine {
  import opened Wrappers

  datatype Settings = Settings(
    assemblyPath: string,
    outputPath: string,
    includeFullProjectDecompilation: bool,
    removeDeadCode: bool,
    removeDeadStores: bool,
    generateNestedDirectories: bool,
    attemptSymbolLoad: bool,
    pdbFilePath: string,
    noFormatting: bool,
    ignoreCompilerGeneratedMethods: bool)

  /** The field initialisers of a new Settings: every flag off, every path empty. */
  const Defaults: Settings := Settings("", "", false, false, false, false, false, "", false, false)

  const MinArgs: nat := 4

  /** The cases of the argument switch. */
  datatype Flag =
    | Assembly | OutputPath | RemoveDeadCode | RemoveDeadStores | NestedDirectories
    | IncludeFullProjectDecompilation | AttemptSymbolLoad | IgnoreCompilerGenerated
    | UsePdbFile | NoFormatting

  function FlagName(f: Flag): string {
    match f
    case Assembly => "--assembly"
    case OutputPath => "--output-path"
    case RemoveDeadCode => "--remove-dead-code"
    case RemoveDeadStores => "--remove-dead-stores"
    case NestedDirectories => "--nested-directories"
    case IncludeFullProjectDecompilation => "--include-full-project-decompilation"
    case AttemptSymbolLoad => "--attempt-symbol-load"
    case IgnoreCompilerGenerated => "--ignore-compiler-generated"
    case UsePdbFile => "--use-pdb-file"
    case NoFormatting => "--no-formatting"
  }

  /** Which case label an argument matches, None for the default case. */
  function Classify(arg: string): (r: Option<Flag>)
    ensures r.Some? ==> FlagName(r.value) == arg
  {
    if arg == "--assembly" then Some(Assembly)
    else if arg == "--output-path" then Some(OutputPath)
    else if arg == "--remove-dead-code" then Some(RemoveDeadCode)
    else if arg == "--remove-dead-stores" then Some(RemoveDeadStores)
    else if arg == "--nested-directories" then Some(NestedDirectories)
    else if arg == "--include-full-project-decompilation" then Some(IncludeFullProjectDecompilation)
    else if arg == "--attempt-symbol-load" then Some(AttemptSymbolLoad)
    else if arg == "--ignore-compiler-generated" then Some(IgnoreCompilerGenerated)
    else if arg == "--use-pdb-file" then Some(UsePdbFile)
    else if arg == "--no-formatting" then Some(NoFormatting)
    else None
  }

  /** The flags that take the following argument as their value. */
  predicate TakesValue(f: Flag) {
    f.Assembly? || f.OutputPath? || f.UsePdbFile?
  }

  /** The effect of a flag without a value: its field becomes true. */
  function SetFlag(s: Settings, f: Flag): Settings
    requires !TakesValue(f)
  {
    Settings(s.assemblyPath, s.outputPath,
      s.includeFullProjectDecompilation || f == IncludeFullProjectDecompilation,
      s.removeDeadCode || f == RemoveDeadCode,
      s.removeDeadStores || f == RemoveDeadStores,
      s.generateNestedDirectories || f == NestedDirectories,
      s.attemptSymbolLoad || f == AttemptSymbolLoad,
      s.pdbFilePath,
      s.noFormatting || f == NoFormatting,
      s.ignoreCompilerGeneratedMethods || f == IgnoreCompilerGenerated)
  }

  /** The effect of a value flag followed by its value. */
  function SetValue(s: Settings, f: Flag, value: string): Settings
    requires TakesValue(f)
  {
    match f
    case Assembly => s.(assemblyPath := value)
    case OutputPath => s.(outputPath := value)
    case UsePdbFile => s.(attemptSymbolLoad := true, pdbFilePath := value)
  }

  /**
   * The argument loop over the arguments not yet visited: None as soon as a
   * visited argument matches no case. A value flag consumes the next
   * argument when there is one and is ignored when it is the last.
   */
  function Scan(rest: seq<string>, s: Settings): Option<Settings>
    decreases |rest|
  {
    if rest == [] then Some(s)
    else match Classify(rest[0])
      case None => None
      case Some(f) =>
        if !TakesValue(f) then Scan(rest[1..], SetFlag(s, f))
        else if |rest| > 1 then Scan(rest[2..], SetValue(s, f, rest[1]))
        else Scan(rest[1..], s)
  }

  /** One step of Scan, for a first argument that names a flag. */
  lemma ScanUnfold(rest: seq<string>, s: Settings)
    requires rest != []
    ensures Classify(rest[0]) == None ==> Scan(rest, s) == None
    ensures Classify(rest[0]).Some? && !TakesValue(Classify(rest[0]).value) ==>
      Scan(rest, s) == Scan(rest[1..], SetFlag(s, Classify(rest[0]).value))
    ensures Classify(rest[0]).Some? && TakesValue(Classify(rest[0]).value) && |rest| > 1 ==>
      Scan(rest, s) == Scan(rest[2..], SetValue(s, Classify(rest[0]).value, rest[1]))
    ensures Classify(rest[0]).Some? && TakesValue(Classify(rest[0]).value) && |rest| == 1 ==>
      Scan(rest, s) == Some(s)
  {
  }

  /** The checks after the loop, in the order the source makes them. */
  function Validate(s: Settings, fileExists: string -> bool): Option<Settings> {
    if s.assemblyPath == "" then None
    else if !fileExists(s.assemblyPath) then None
    else if s.outputPath == "" then None
    else if s.pdbFilePath != "" && !fileExists(s.pdbFilePath) then None
    else Some(s)
  }

  function LoadSettingsOf(args: seq<string>, fileExists: string -> bool): Option<Settings> {
    if |args| < MinArgs then None
    else match Scan(args, Defaults)
      case None => None
      case Some(s) => Validate(s, fileExists)
  }

  method LoadSettings(args: seq<string>, fileExists: string -> bool) returns (r: Option<Settings>)
    ensures r == LoadSettingsOf(args, fileExists)
  {
    if |args| < MinArgs {
      return None;
    }
    var settings := Defaults;
    var i := 0;
    while i < |args|
      invariant 0 <= i <= |args|
      invariant Scan(args, Defaults) == Scan(args[i..], settings)
    {
      assert args[i..][0] == args[i];
      assert args[i..][1..] == args[i + 1..];
      ScanUnfold(args[i..], settings);
      match Classify(args[i]) {
        case None =>
          return None;
        case Some(f) =>
          if !TakesValue(f) {
            settings := SetFlag(settings, f);
          } else if i + 1 < |args| {
            assert args[i..][2..] == args[i + 2..];
            i := i + 1;
            settings := SetValue(settings, f, args[i]);
          }
      }
      i := i + 1;
    }
    assert args[i..] == [];
    if settings.assemblyPath == "" {
      return None;
    }
    if !fileExists(settings.assemblyPath) {
      return None;
    }
    if settings.outputPath == "" {
      return None;
    }
    if settings.pdbFilePath != "" && !fileExists(settings.pdbFilePath) {
      return None;
    }
    return Some(settings);
  }

  // ---------------------------------------------------------------- properties

  /** Every case label is recognised as its own case. */
  lemma ClassifyFlagName(f: Flag)
    ensures Classify(FlagName(f)) == Some(f)
  {
    match f
    case Assembly =>
    case OutputPath =>
    case RemoveDeadCode =>
    case RemoveDeadStores =>
    case NestedDirectories =>
    case IncludeFullProjectDecompilation =>
    case AttemptSymbolLoad =>
    case IgnoreCompilerGenerated =>
    case UsePdbFile =>
    case NoFormatting =>
  }

  lemma TooFewArguments(args: seq<string>, fileExists: string -> bool)
    requires |args| < MinArgs
    ensures LoadSettingsOf(args, fileExists) == None
  {
  }

  /**
   * The whole result: accepted exactly when there are enough arguments, every
   * visited argument is a known flag, both paths are set, the assembly exists
   * and a PDB path, if given, exists.
   */
  lemma LoadSettingsAccepts(args: seq<string>, fileExists: string -> bool, s: Settings)
    ensures LoadSettingsOf(args, fileExists) == Some(s) <==>
      && |args| >= MinArgs
      && Scan(args, Defaults) == Some(s)
      && s.assemblyPath != "" && fileExists(s.assemblyPath)
      && s.outputPath != ""
      && (s.pdbFilePath == "" || fileExists(s.pdbFilePath))
  {
  }

  /** A value flag's argument is taken as its value, never read as a flag. */
  lemma ValueIsConsumed(f: Flag, value: string, rest: seq<string>, s: Settings)
    requires TakesValue(f)
    ensures Scan([FlagName(f), value] + rest, s) == Scan(rest, SetValue(s, f, value))
  {
    ClassifyFlagName(f);
    assert ([FlagName(f), value] + rest)[2..] == rest;
  }

  /** A value flag in last position changes nothing. */
  lemma TrailingValueFlag(f: Flag, s: Settings)
    requires TakesValue(f)
    ensures Scan([FlagName(f)], s) == Some(s)
  {
    ClassifyFlagName(f);
  }

  /** --use-pdb-file sets both the PDB path and symbol loading. */
  lemma PdbFlagSetsBoth(p: string, rest: seq<string>, s: Settings)
    ensures Scan(["--use-pdb-file", p] + rest, s)
            == Scan(rest, s.(attemptSymbolLoad := true, pdbFilePath := p))
  {
    ValueIsConsumed(UsePdbFile, p, rest, s);
  }

  /** One step of the scan over a flag without a value. */
  lemma BooleanFlagStep(f: Flag, rest: seq<string>, s: Settings)
    requires !TakesValue(f)
    ensures Scan([FlagName(f)] + rest, s) == Scan(rest, SetFlag(s, f))
  {
    ClassifyFlagName(f);
    assert ([FlagName(f)] + rest)[1..] == rest;
  }

  /** Repeating a flag without a value is the same as giving it once. */
  lemma RepeatedBooleanFlag(f: Flag, rest: seq<string>, s: Settings)
    requires !TakesValue(f)
    ensures Scan([FlagName(f), FlagName(f)] + rest, s) == Scan([FlagName(f)] + rest, s)
  {
    assert [FlagName(f), FlagName(f)] + rest == [FlagName(f)] + ([FlagName(f)] + rest);
    BooleanFlagStep(f, [FlagName(f)] + rest, s);
    BooleanFlagStep(f, rest, SetFlag(s, f));
    BooleanFlagStep(f, rest, s);
  }

  /** A later value of the same value flag overwrites the earlier one. */
  lemma RepeatedValueFlag(f: Flag, v1: string, v2: string, rest: seq<string>, s: Settings)
    requires TakesValue(f)
    ensures Scan([FlagName(f), v1, FlagName(f), v2] + rest, s) == Scan([FlagName(f), v2] + rest, s)
  {
    assert [FlagName(f), v1, FlagName(f), v2] + rest == [FlagName(f), v1] + ([FlagName(f), v2] + rest);
    ValueIsConsumed(f, v1, [FlagName(f), v2] + rest, s);
    ValueIsConsumed(f, v2, rest, SetValue(s, f, v1));
    ValueIsConsumed(f, v2, rest, s);
  }

  /**
   * Without value flags every argument is visited, so one unknown argument
   * anywhere rejects the whole list.
   */
  lemma {:induction false} UnknownArgumentRejected(rest: seq<string>, j: nat, s: Settings)
    requires forall i :: 0 <= i < |rest| && Classify(rest[i]).Some? ==> !TakesValue(Classify(rest[i]).value)
    requires j < |rest| && Classify(rest[j]) == None
    ensures Scan(rest, s) == None
  {
    if j > 0 && Classify(rest[0]).Some? {
      UnknownArgumentRejected(rest[1..], j - 1, SetFlag(s, Classify(rest[0]).value));
    }
  }

  /**
   * Whether the loop reads position j of args as a switch: position 0 always,
   * and a later one when the loop reaches it past the switches and values
   * before it (a value flag's argument is skipped, not read).
   */
  predicate ReadAsSwitch(args: seq<string>, j: nat)
    decreases |args|
  {
    && j < |args|
    && (j == 0 ||
        match Classify(args[0])
        case None => false
        case Some(f) =>
          if TakesValue(f) && |args| > 1 then j >= 2 && ReadAsSwitch(args[2..], j - 2)
          else ReadAsSwitch(args[1..], j - 1))
  }

  /** An unknown argument wherever the loop reads a switch rejects the whole list. */
  lemma {:induction false} UnknownSwitchRejected(args: seq<string>, j: nat, s: Settings)
    requires j < |args| && ReadAsSwitch(args, j) && Classify(args[j]) == None
    ensures Scan(args, s) == None
    decreases |args|
  {
    if j > 0 {
      var f := Classify(args[0]).value;
      if TakesValue(f) && |args| > 1 {
        assert args[2..][j - 2] == args[j];
        UnknownSwitchRejected(args[2..], j - 2, SetValue(s, f, args[1]));
      } else if !TakesValue(f) {
        assert args[1..][j - 1] == args[j];
        UnknownSwitchRejected(args[1..], j - 1, SetFlag(s, f));
      }
    }
  }

  /**
   * "--help" and "-h" are not cases of the switch: wherever the loop reads
   * one of them as a switch, the arguments are rejected.
   */
  lemma HelpRejected(args: seq<string>, fileExists: string -> bool, j: nat)
    requires j < |args| && ReadAsSwitch(args, j) && (args[j] == "--help" || args[j] == "-h")
    ensures LoadSettingsOf(args, fileExists) == None
  {
    assert Classify(args[j]) == None;
    UnknownSwitchRejected(args, j, Defaults);
  }

  /** After a value flag, "--help" is read as that flag's value, not as a switch. */
  lemma HelpAsValueAccepted(fileExists: string -> bool)
    requires fileExists("--help")
    ensures !ReadAsSwitch(["--assembly", "--help", "--output-path", "out"], 1)
    ensures LoadSettingsOf(["--assembly", "--help", "--output-path", "out"], fileExists)
            == Some(Defaults.(assemblyPath := "--help", outputPath := "out"))
  {
    var args := ["--assembly", "--help", "--output-path", "out"];
    assert Classify(args[0]) == Some(Assembly);
    assert args[2..] == ["--output-path", "out"];
    assert Classify(args[2]) == Some(OutputPath);
    assert args[2..][2..] == [];
  }

  /** Boolean fields only ever go from false to true. */
  predicate FlagsIncrease(s: Settings, r: Settings) {
    && (s.removeDeadCode ==> r.removeDeadCode)
    && (s.removeDeadStores ==> r.removeDeadStores)
    && (s.generateNestedDirectories ==> r.generateNestedDirectories)
    && (s.includeFullProjectDecompilation ==> r.includeFullProjectDecompilation)
    && (s.attemptSymbolLoad ==> r.attemptSymbolLoad)
    && (s.ignoreCompilerGeneratedMethods ==> r.ignoreCompilerGeneratedMethods)
    && (s.noFormatting ==> r.noFormatting)
  }

  /** The next state of the scan and how many arguments the step consumes. */
  lemma ScanStep(rest: seq<string>, s: Settings) returns (next: Settings, used: nat)
    requires rest != [] && Classify(rest[0]).Some?
    ensures 0 < used <= |rest| && used <= 2 && Scan(rest, s) == Scan(rest[used..], next)
    ensures FlagsIncrease(s, next)
    ensures used == 2 ==> TakesValue(Classify(rest[0]).value)
    ensures ChangedOnlyBy(s, next, {Classify(rest[0]).value})
  {
    var f := Classify(rest[0]).value;
    if !TakesValue(f) {
      next, used := SetFlag(s, f), 1;
      SetFlagIncreases(s, f);
      SetFlagChanges(s, f);
    } else if |rest| > 1 {
      next, used := SetValue(s, f, rest[1]), 2;
      SetValueIncreases(s, f, rest[1]);
      SetValueChanges(s, f, rest[1]);
    } else {
      next, used := s, 1;
    }
  }

  lemma SetFlagIncreases(s: Settings, f: Flag)
    requires !TakesValue(f)
    ensures FlagsIncrease(s, SetFlag(s, f))
  {
  }

  lemma SetValueIncreases(s: Settings, f: Flag, v: string)
    requires TakesValue(f)
    ensures FlagsIncrease(s, SetValue(s, f, v))
  {
    match f
    case Assembly =>
    case OutputPath =>
    case UsePdbFile =>
  }

  lemma {:induction false} ScanMonotone(rest: seq<string>, s: Settings, r: Settings)
    requires Scan(rest, s) == Some(r)
    ensures FlagsIncrease(s, r)
    decreases |rest|
  {
    if rest != [] {
      var next, used := ScanStep(rest, s);
      ScanMonotone(rest[used..], next, r);
    }
  }

  /** The cases the arguments match, wherever they stand. */
  function MentionedFlags(args: seq<string>): set<Flag>
    decreases |args|
  {
    if args == [] then {}
    else (match Classify(args[0]) case None => {} case Some(f) => {f}) + MentionedFlags(args[1..])
  }

  lemma {:induction false} MentionedFlagsAreNamed(args: seq<string>, f: Flag)
    requires f in MentionedFlags(args)
    ensures FlagName(f) in args
    decreases |args|
  {
    if Classify(args[0]) != Some(f) {
      MentionedFlagsAreNamed(args[1..], f);
    }
  }

  lemma MentionedFlagsTail(args: seq<string>)
    requires args != []
    ensures MentionedFlags(args[1..]) <= MentionedFlags(args)
  {
  }

  /** A field of r differs from the same field of s only if a flag that sets it is in fs. */
  predicate ChangedOnlyBy(s: Settings, r: Settings, fs: set<Flag>) {
    && (r.removeDeadCode != s.removeDeadCode ==> RemoveDeadCode in fs)
    && (r.removeDeadStores != s.removeDeadStores ==> RemoveDeadStores in fs)
    && (r.generateNestedDirectories != s.generateNestedDirectories ==> NestedDirectories in fs)
    && (r.includeFullProjectDecompilation != s.includeFullProjectDecompilation ==> IncludeFullProjectDecompilation in fs)
    && (r.attemptSymbolLoad != s.attemptSymbolLoad ==> AttemptSymbolLoad in fs || UsePdbFile in fs)
    && (r.ignoreCompilerGeneratedMethods != s.ignoreCompilerGeneratedMethods ==> IgnoreCompilerGenerated in fs)
    && (r.noFormatting != s.noFormatting ==> NoFormatting in fs)
    && (r.assemblyPath != s.assemblyPath ==> Assembly in fs)
    && (r.outputPath != s.outputPath ==> OutputPath in fs)
    && (r.pdbFilePath != s.pdbFilePath ==> UsePdbFile in fs)
  }

  lemma ChangedOnlyByTrans(s: Settings, n: Settings, r: Settings, a: set<Flag>, b: set<Flag>, c: set<Flag>)
    requires ChangedOnlyBy(s, n, a) && ChangedOnlyBy(n, r, b) && a + b <= c
    ensures ChangedOnlyBy(s, r, c)
  {
  }

  lemma SetFlagChanges(s: Settings, f: Flag)
    requires !TakesValue(f)
    ensures ChangedOnlyBy(s, SetFlag(s, f), {f})
  {
  }

  lemma SetValueChanges(s: Settings, f: Flag, v: string)
    requires TakesValue(f)
    ensures ChangedOnlyBy(s, SetValue(s, f, v), {f})
  {
    match f
    case Assembly =>
    case OutputPath =>
    case UsePdbFile =>
  }

  /** What the whole scan changes is explained by the flags its arguments name. */
  lemma {:induction false} ScanTouches(rest: seq<string>, s: Settings, r: Settings)
    requires Scan(rest, s) == Some(r)
    ensures ChangedOnlyBy(s, r, MentionedFlags(rest))
    decreases |rest|
  {
    if rest != [] {
      var next, used := ScanStep(rest, s);
      ScanTouches(rest[used..], next, r);
      var f := Classify(rest[0]).value;
      var m := MentionedFlags(rest);
      assert m == {f} + MentionedFlags(rest[1..]);
      assert MentionedFlags(rest[used..]) <= m by {
        if used == 2 {
          MentionedFlagsTail(rest[1..]);
          assert rest[1..][1..] == rest[2..];
        }
      }
      ChangedOnlyByTrans(s, next, r, {f}, MentionedFlags(rest[used..]), MentionedFlags(rest));
    }
  }

  /** A field no argument touches keeps its initial value: false or empty. */
  lemma UntouchedFieldsKeepDefaults(args: seq<string>, fileExists: string -> bool, s: Settings)
    requires LoadSettingsOf(args, fileExists) == Some(s)
    ensures FlagName(RemoveDeadCode) !in args ==> !s.removeDeadCode
    ensures FlagName(RemoveDeadStores) !in args ==> !s.removeDeadStores
    ensures FlagName(NestedDirectories) !in args ==> !s.generateNestedDirectories
    ensures FlagName(IncludeFullProjectDecompilation) !in args ==> !s.includeFullProjectDecompilation
    ensures FlagName(AttemptSymbolLoad) !in args && FlagName(UsePdbFile) !in args ==> !s.attemptSymbolLoad
    ensures FlagName(IgnoreCompilerGenerated) !in args ==> !s.ignoreCompilerGeneratedMethods
    ensures FlagName(NoFormatting) !in args ==> !s.noFormatting
    ensures FlagName(UsePdbFile) !in args ==> s.pdbFilePath == ""
  {
    LoadSettingsAccepts(args, fileExists, s);
    ScanTouches(args, Defaults, s);
    UnnamedFieldsAtDefault(args, s);
  }

  lemma UnnamedFieldsAtDefault(args: seq<string>, s: Settings)
    requires ChangedOnlyBy(Defaults, s, MentionedFlags(args))
    ensures FlagName(RemoveDeadCode) !in args ==> !s.removeDeadCode
    ensures FlagName(RemoveDeadStores) !in args ==> !s.removeDeadStores
    ensures FlagName(NestedDirectories) !in args ==> !s.generateNestedDirectories
    ensures FlagName(IncludeFullProjectDecompilation) !in args ==> !s.includeFullProjectDecompilation
    ensures FlagName(AttemptSymbolLoad) !in args && FlagName(UsePdbFile) !in args ==> !s.attemptSymbolLoad
    ensures FlagName(IgnoreCompilerGenerated) !in args ==> !s.ignoreCompilerGeneratedMethods
    ensures FlagName(NoFormatting) !in args ==> !s.noFormatting
    ensures FlagName(UsePdbFile) !in args ==> s.pdbFilePath == ""
  {
    var mentioned := MentionedFlags(args);
    if RemoveDeadCode in mentioned { MentionedFlagsAreNamed(args, RemoveDeadCode); }
    if RemoveDeadStores in mentioned { MentionedFlagsAreNamed(args, RemoveDeadStores); }
    if NestedDirectories in mentioned { MentionedFlagsAreNamed(args, NestedDirectories); }
    if IncludeFullProjectDecompilation in mentioned { MentionedFlagsAreNamed(args, IncludeFullProjectDecompilation); }
    if AttemptSymbolLoad in mentioned { MentionedFlagsAreNamed(args, AttemptSymbolLoad); }
    if UsePdbFile in mentioned { MentionedFlagsAreNamed(args, UsePdbFile); }
    if IgnoreCompilerGenerated in mentioned { MentionedFlagsAreNamed(args, IgnoreCompilerGenerated); }
    if NoFormatting in mentioned { MentionedFlagsAreNamed(args, NoFormatting); }
  }
}
