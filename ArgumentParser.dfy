/** ArgumentParser: reads the command line into a Program.  The first argument names
 *  the mode; after it come options, each followed by its value: -s/--server,
 *  -d/--database and -f/--files.  Every rejection is an InvalidArgumentsException.
 *  Parsing a mode name (`Enum.TryParse`, ignoring case), resolving a full path
 *  (`Path.GetFullPath`) and the directory separator belong to the runtime, and are
 *  passed in as an Environment. */
module ArgumentParsing {
  import opened Wrappers
  import opened OrdinalText

  /** ProgramMode: None, or one of the modes the program runs in, by name. */
  datatype ProgramMode = NoMode | Mode(name: string)

  /** What the runtime contributes to parsing.  Resolving a full path may throw (an
   *  empty path, or one with invalid characters, is an ArgumentException); that
   *  exception is the Failure `fullPath` returns. */
  datatype Environment = Environment(parseMode: string -> Option<ProgramMode>, fullPath: string -> Result<string>, separator: char)

  /** ProgramSubjectDatabase: the server and the database to work on. */
  class ProgramSubjectDatabase {
    var server: string
    var database: string

    /** The defaults: the local server's tempdb. */
    constructor()
      ensures server == "(local)" && database == "tempdb"
    {
      server := "(local)";
      database := "tempdb";
    }
  }

  /** The parsed settings of a Program, as values. */
  datatype Settings = Settings(mode: ProgramMode, server: string, database: string, bulkFilesPath: Option<string>)

  /** A new Program's settings. */
  const DefaultSettings := Settings(NoMode, "(local)", "tempdb", None)

  /** Program: its mode, its subject database and the directory of its bulk files. */
  class Program {
    var mode: ProgramMode
    var bulkFilesPath: Option<string>
    var subjectDatabase: ProgramSubjectDatabase

    /** A new Program: no mode, no files path, the default database. */
    constructor()
      ensures Current() == DefaultSettings
      ensures fresh(subjectDatabase)
    {
      mode := NoMode;
      bulkFilesPath := None;
      subjectDatabase := new ProgramSubjectDatabase();
    }

    /** The program's settings. */
    function Current(): Settings
      reads this, subjectDatabase
    {
      Settings(mode, subjectDatabase.server, subjectDatabase.database, bulkFilesPath)
    }
  }

  /** The files path an -f value becomes: its full path with any trailing separators
   *  replaced by exactly one, or the exception resolving the full path throws. */
  function FilesPath(env: Environment, value: string): (r: Result<string>)
    ensures r.Failure? <==> env.fullPath(value).Failure?
    ensures r.Failure? ==> r.error == env.fullPath(value).error
    ensures r.Success? ==> OneTrailingSeparator(r.value, env.separator)
  {
    var full :- env.fullPath(value);
    Success(TrimEnd(full, env.separator) + [env.separator])
  }

  /** A path that ends in the separator, once. */
  predicate OneTrailingSeparator(p: string, separator: char)
  {
    |p| > 0 && p[|p| - 1] == separator && (|p| > 1 ==> p[|p| - 2] != separator)
  }

  /** What parsing leaves: the settings reached, and the exception that stopped it, if
   *  any.  The program keeps what was set before the exception. */
  datatype Outcome = Outcome(settings: Settings, error: Option<Error>)

  /** Parsing the remaining arguments from the given settings: the first argument
   *  while there is no mode must name one; then each option takes the next argument
   *  as its value; at the end a mode must have been given.  Every rejection is an
   *  InvalidArgumentsException, except the exception resolving a files value throws,
   *  which the parser lets through. */
  function Parsed(args: seq<string>, s: Settings, env: Environment): (r: Outcome)
    ensures r.error.Some? ==>
      r.error.value.InvalidArguments? || exists v :: v in args && env.fullPath(v) == Failure(r.error.value)
    decreases |args|
  {
    if args == [] then
      if s.mode == NoMode then Outcome(s, Some(InvalidArguments("No mode specified"))) else Outcome(s, None)
    else if s.mode == NoMode then
      var m := env.parseMode(args[0]);
      if m.None? || m.value == NoMode then Outcome(s, Some(InvalidArguments("Not a valid mode: " + args[0])))
      else Parsed(args[1..], s.(mode := m.value), env)
    else if args[0] == "-s" || args[0] == "--server" then
      if |args| < 2 then Outcome(s, Some(InvalidArguments("Expected another parameter after --server")))
      else Parsed(args[2..], s.(server := args[1]), env)
    else if args[0] == "-d" || args[0] == "--database" then
      if |args| < 2 then Outcome(s, Some(InvalidArguments("Expected another parameter after --database")))
      else Parsed(args[2..], s.(database := args[1]), env)
    else if args[0] == "-f" || args[0] == "--files" then
      if |args| < 2 then Outcome(s, Some(InvalidArguments("Expected another parameter after --files")))
      else match FilesPath(env, args[1])
        case Failure(e) => Outcome(s, Some(e))
        case Success(path) => Parsed(args[2..], s.(bulkFilesPath := Some(path)), env)
    else Outcome(s, Some(InvalidArguments("Unrecognised argument: " + args[0])))
  }

  /** Parse: walks the arguments, setting the program's mode, subject database and
   *  files path as it goes; returns the exception that stops it, if any. */
  method Parse(args: seq<string>, program: Program, env: Environment) returns (r: Result<()>)
    modifies program, program.subjectDatabase
    ensures program.subjectDatabase == old(program.subjectDatabase)
    ensures program.Current() == Parsed(args, old(program.Current()), env).settings
    ensures r.Failure? <==> Parsed(args, old(program.Current()), env).error.Some?
    ensures r.Failure? ==> r.error == Parsed(args, old(program.Current()), env).error.value
  {
    ghost var start := program.Current();
    var i := 0;
    while i < |args|
      invariant 0 <= i <= |args|
      invariant program.subjectDatabase == old(program.subjectDatabase)
      invariant Parsed(args, start, env) == Parsed(args[i..], program.Current(), env)
      decreases |args| - i
    {
      var arg := args[i];
      assert args[i..][0] == arg;
      if program.mode == NoMode {
        var m := env.parseMode(arg);
        if m.None? || m.value == NoMode {
          return Failure(InvalidArguments("Not a valid mode: " + arg));
        }
        program.mode := m.value;
        assert args[i..][1..] == args[i + 1..];
        i := i + 1;
        continue;
      }
      if arg == "-s" || arg == "--server" {
        if i + 1 >= |args| {
          return Failure(InvalidArguments("Expected another parameter after --server"));
        }
        program.subjectDatabase.server := args[i + 1];
      } else if arg == "-d" || arg == "--database" {
        if i + 1 >= |args| {
          return Failure(InvalidArguments("Expected another parameter after --database"));
        }
        program.subjectDatabase.database := args[i + 1];
      } else if arg == "-f" || arg == "--files" {
        if i + 1 >= |args| {
          return Failure(InvalidArguments("Expected another parameter after --files"));
        }
        var path := FilesPath(env, args[i + 1]);
        if path.Failure? {
          return Failure(path.error);
        }
        program.bulkFilesPath := Some(path.value);
      } else {
        return Failure(InvalidArguments("Unrecognised argument: " + arg));
      }
      assert args[i..][1] == args[i + 1] && args[i..][2..] == args[i + 2..];
      i := i + 2;
    }
    if program.mode == NoMode {
      return Failure(InvalidArguments("No mode specified"));
    }
    return Success(());
  }

  /** A parse that finishes has a mode. */
  lemma {:induction false} FinishedParseHasMode(args: seq<string>, s: Settings, env: Environment)
    ensures Parsed(args, s, env).error.None? ==> Parsed(args, s, env).settings.mode != NoMode
    decreases |args|
  {
    if args != [] {
      if s.mode == NoMode {
        var m := env.parseMode(args[0]);
        if !(m.None? || m.value == NoMode) {
          FinishedParseHasMode(args[1..], s.(mode := m.value), env);
        }
      } else if |args| >= 2 {
        FinishedParseHasMode(args[2..], s.(server := args[1]), env);
        FinishedParseHasMode(args[2..], s.(database := args[1]), env);
        if FilesPath(env, args[1]).Success? {
          FinishedParseHasMode(args[2..], s.(bulkFilesPath := Some(FilesPath(env, args[1]).value)), env);
        }
      }
    }
  }

  /** The files path always ends in exactly one separator, whether the parse finishes
   *  or not. */
  lemma {:induction false} FilesPathEndsInOneSeparator(args: seq<string>, s: Settings, env: Environment)
    requires s.bulkFilesPath.Some? ==> OneTrailingSeparator(s.bulkFilesPath.value, env.separator)
    ensures var p := Parsed(args, s, env).settings.bulkFilesPath;
      p.Some? ==> OneTrailingSeparator(p.value, env.separator)
    decreases |args|
  {
    if args != [] {
      if s.mode == NoMode {
        var m := env.parseMode(args[0]);
        if !(m.None? || m.value == NoMode) {
          FilesPathEndsInOneSeparator(args[1..], s.(mode := m.value), env);
        }
      } else if |args| >= 2 {
        FilesPathEndsInOneSeparator(args[2..], s.(server := args[1]), env);
        FilesPathEndsInOneSeparator(args[2..], s.(database := args[1]), env);
        if FilesPath(env, args[1]).Success? {
          FilesPathEndsInOneSeparator(args[2..], s.(bulkFilesPath := Some(FilesPath(env, args[1]).value)), env);
        }
      }
    }
  }

  /** Arguments that parse to the end can be followed by more: parsing the whole is
   *  parsing the rest from where the first part left off. */
  lemma {:induction false} ParsedConcatenation(a: seq<string>, b: seq<string>, s: Settings, env: Environment)
    requires Parsed(a, s, env).error.None?
    ensures Parsed(a + b, s, env) == Parsed(b, Parsed(a, s, env).settings, env)
    decreases |a|
  {
    if a == [] {
      assert a + b == b;
    } else {
      var ab := a + b;
      assert ab[0] == a[0];
      if s.mode == NoMode {
        var m := env.parseMode(a[0]);
        assert ab[1..] == a[1..] + b;
        ParsedConcatenation(a[1..], b, s.(mode := m.value), env);
      } else {
        assert |a| >= 2 && ab[1] == a[1] && ab[2..] == a[2..] + b;
        if a[0] == "-s" || a[0] == "--server" {
          ParsedConcatenation(a[2..], b, s.(server := a[1]), env);
        } else if a[0] == "-d" || a[0] == "--database" {
          ParsedConcatenation(a[2..], b, s.(database := a[1]), env);
        } else {
          ParsedConcatenation(a[2..], b, s.(bulkFilesPath := Some(FilesPath(env, a[1]).value)), env);
        }
      }
    }
  }

  /** A repeated option overwrites the earlier value: after arguments that parse to
   *  the end, "-s v -s w" leaves the server w, and likewise for the database. */
  lemma RepeatedOptionOverwrites(a: seq<string>, s: Settings, env: Environment, v: string, w: string)
    requires Parsed(a, s, env).error.None?
    ensures var t := Parsed(a, s, env).settings;
      Parsed(a + ["-s", v, "--server", w], s, env) == Outcome(t.(server := w), None)
      && Parsed(a + ["--database", v, "-d", w], s, env) == Outcome(t.(database := w), None)
  {
    var t := Parsed(a, s, env).settings;
    FinishedParseHasMode(a, s, env);
    ParsedConcatenation(a, ["-s", v, "--server", w], s, env);
    ParsedConcatenation(a, ["--database", v, "-d", w], s, env);
    assert ["-s", v, "--server", w][2..] == ["--server", w];
    assert ["--server", w][2..] == [];
    assert Parsed(["--server", w], t.(server := v), env) == Outcome(t.(server := w), None);
    assert ["--database", v, "-d", w][2..] == ["-d", w];
    assert ["-d", w][2..] == [];
    assert Parsed(["-d", w], t.(database := v), env) == Outcome(t.(database := w), None);
  }

  /** The argument parser's cases, for a runtime that reads "import" as the Import mode
   *  and "-s" as no mode: a mode alone; a mode and a server; and the three rejected
   *  command lines (nothing, a server but no mode, a server option without a value). */
  lemma ParserCases(env: Environment)
    requires env.parseMode("import") == Some(Mode("Import"))
    requires env.parseMode("-s").None?
    ensures Parsed(["import"], DefaultSettings, env) == Outcome(DefaultSettings.(mode := Mode("Import")), None)
    ensures Parsed(["import", "-s", "localhost"], DefaultSettings, env)
      == Outcome(DefaultSettings.(mode := Mode("Import"), server := "localhost"), None)
    ensures Parsed([], DefaultSettings, env).error == Some(InvalidArguments("No mode specified"))
    ensures Parsed(["-s", "localhost"], DefaultSettings, env).error == Some(InvalidArguments("Not a valid mode: -s"))
    ensures Parsed(["import", "-s"], DefaultSettings, env).error
      == Some(InvalidArguments("Expected another parameter after --server"))
  {
    var imported := DefaultSettings.(mode := Mode("Import"));
    assert ["import"][1..] == [];
    assert ["import", "-s", "localhost"][1..] == ["-s", "localhost"];
    assert ["-s", "localhost"][2..] == [];
    assert ["import", "-s"][1..] == ["-s"];
    assert "Not a valid mode: " + "-s" == "Not a valid mode: -s";
  }

  /** An empty files value, for a runtime whose full-path resolution refuses "" with
   *  an ArgumentException, as Path.GetFullPath does: that exception is what the parse
   *  ends with, not an InvalidArgumentsException. */
  lemma EmptyFilesValueEscapes(env: Environment)
    requires env.parseMode("import") == Some(Mode("Import"))
    requires env.fullPath("") == Failure(Argument)
    ensures Parsed(["import", "-f", ""], DefaultSettings, env) == Outcome(DefaultSettings.(mode := Mode("Import")), Some(Argument))
    ensures !Parsed(["import", "-f", ""], DefaultSettings, env).error.value.InvalidArguments?
  {
    assert ["import", "-f", ""][1..] == ["-f", ""];
  }
}
