/** Layered configuration: command line, configuration file, environment, defaults. */
module Configuration {
  import opened Common
  import opened CText
  import opened NumberTheorems

  datatype TextField = ServerRoot | LogFile | File404 | ServerName | DefaultDocument

  datatype IntField = MaxConnections | Port | ServerMode

  // ---- The four sources ----

  /** One option as getopt_long reports it. */
  datatype Opt = Text(field: TextField, argument: string) | Number(number: IntField, digits: string)
               | Help | Unknown

  datatype Setting = Str(text: string) | Int(value: int)

  datatype File = Absent | Malformed | Settings(entries: map<string, Setting>)

  type Environment = map<string, string>

  function FileKey(f: TextField): string {
    match f
    case ServerRoot => "server_root"
    case LogFile => "logfile_location"
    case File404 => "error_404"
    case ServerName => "server_name"
    case DefaultDocument => "default_document"
  }

  function FileIntKey(f: IntField): string {
    match f
    case MaxConnections => "max_connections"
    case Port => "port"
    case ServerMode => "server_mode"
  }

  function Variable(f: TextField): string {
    match f
    case ServerRoot => "DC_SERVER_ROOT"
    case LogFile => "DC_LOG_FILE"
    case File404 => "DC_404_FILE"
    case ServerName => "DC_SERVER_NAME"
    case DefaultDocument => "DC_DEFAULT_DOCUMENT"
  }

  function IntVariable(f: IntField): string {
    match f
    case MaxConnections => "DC_MAX_CONNECTIONS"
    case Port => "DC_SERVER_PORT"
    case ServerMode => "DC_SERVER_MODE"
  }

  function Default(f: TextField): string {
    match f
    case ServerRoot => "./"
    case LogFile => "server.log"
    case File404 => "error_404.html"
    case ServerName => "ACJ Server"
    case DefaultDocument => "index.html"
  }

  function IntDefault(f: IntField): int {
    match f case MaxConnections => 10 case Port => 80 case ServerMode => 1
  }

  /** What each source offers for a field; an int of 0 is no offer. */
  function InFile(file: File, f: TextField): Option<string> {
    if file.Settings? && FileKey(f) in file.entries && file.entries[FileKey(f)].Str?
    then Some(file.entries[FileKey(f)].text) else None
  }

  function IntInFile(file: File, f: IntField): int {
    if file.Settings? && FileIntKey(f) in file.entries && file.entries[FileIntKey(f)].Int?
    then file.entries[FileIntKey(f)].value else 0
  }

  function InEnvironment(env: Environment, f: TextField): Option<string> {
    if Variable(f) in env then Some(env[Variable(f)]) else None
  }

  function IntInEnvironment(env: Environment, f: IntField): int {
    if IntVariable(f) in env then ToInt(env[IntVariable(f)]) else 0
  }

  /** The first occurrence of a text option, the last of a number option. */
  function FirstText(opts: seq<Opt>, f: TextField): Option<string> {
    if opts == [] then None
    else if opts[0].Text? && opts[0].field == f then Some(opts[0].argument)
    else FirstText(opts[1..], f)
  }

  function LastInt(opts: seq<Opt>, f: IntField): int {
    if opts == [] then 0
    else
      var last := opts[|opts| - 1];
      if last.Number? && last.number == f then ToInt(last.digits)
      else LastInt(opts[..|opts| - 1], f)
  }

  // ---- Precedence ----

  function Or<T>(first: Option<T>, second: Option<T>): Option<T> {
    if first.Some? then first else second
  }

  function OrInt(first: int, second: int): int { if first != 0 then first else second }

  function TextValue(opts: seq<Opt>, file: File, env: Environment, f: TextField): string {
    Or(Or(FirstText(opts, f), InFile(file, f)), Or(InEnvironment(env, f), Some(Default(f)))).value
  }

  function IntValue(opts: seq<Opt>, file: File, env: Environment, f: IntField): int {
    OrInt(OrInt(LastInt(opts, f), IntInFile(file, f)),
          OrInt(IntInEnvironment(env, f), IntDefault(f)))
  }

  // ---- The record, filled field by field ----

  /** How the reader ends: with a record, or by leaving the program. */
  datatype Ending = Ready | ShownHelp | BadOption | BadFile

  class Config {
    var serverRoot: Option<string>
    var logFile: Option<string>
    var file404: Option<string>
    var serverName: Option<string>
    var defaultDocument: Option<string>
    var maxConnections: int
    var port: int
    var serverMode: int

    ghost function TextOf(f: TextField): Option<string>
      reads this
    {
      match f
      case ServerRoot => serverRoot
      case LogFile => logFile
      case File404 => file404
      case ServerName => serverName
      case DefaultDocument => defaultDocument
    }

    ghost function IntOf(f: IntField): int
      reads this
    {
      match f case MaxConnections => maxConnections case Port => port case ServerMode => serverMode
    }

    constructor ()
      ensures forall f :: TextOf(f) == None
      ensures forall f :: IntOf(f) == 0
    {
      serverRoot, logFile, file404, serverName, defaultDocument := None, None, None, None, None;
      maxConnections, port, serverMode := 0, 0, 0;
    }

    method AssignText(f: TextField, value: string)
      modifies this
      ensures forall g ::
        TextOf(g) == if g == f then Or(old(TextOf(g)), Some(value)) else old(TextOf(g))
      ensures forall g :: IntOf(g) == old(IntOf(g))
    {
      match f {
        case ServerRoot => if serverRoot == None { serverRoot := Some(value); }
        case LogFile => if logFile == None { logFile := Some(value); }
        case File404 => if file404 == None { file404 := Some(value); }
        case ServerName => if serverName == None { serverName := Some(value); }
        case DefaultDocument => if defaultDocument == None { defaultDocument := Some(value); }
      }
    }

    method AssignInt(f: IntField, value: int)
      modifies this
      ensures forall g ::
        IntOf(g) == if g == f then OrInt(old(IntOf(g)), value) else old(IntOf(g))
      ensures forall g :: TextOf(g) == old(TextOf(g))
    {
      match f {
        case MaxConnections => if maxConnections == 0 { maxConnections := value; }
        case Port => if port == 0 { port := value; }
        case ServerMode => if serverMode == 0 { serverMode := value; }
      }
    }

    method OverwriteInt(f: IntField, value: int)
      modifies this
      ensures forall g :: IntOf(g) == if g == f then value else old(IntOf(g))
      ensures forall g :: TextOf(g) == old(TextOf(g))
    {
      match f {
        case MaxConnections => maxConnections := value;
        case Port => port := value;
        case ServerMode => serverMode := value;
      }
    }

    /** The option loop; text options keep their first value, number options their last. */
    method ReadCommandLine(opts: seq<Opt>) returns (ending: Ending)
      requires forall f :: TextOf(f) == None
      requires forall f :: IntOf(f) == 0
      modifies this
      ensures ending == CommandLineEnding(opts)
      ensures ending == Ready ==> forall f :: TextOf(f) == FirstText(opts, f)
      ensures ending == Ready ==> forall f :: IntOf(f) == LastInt(opts, f)
    {
      var k := 0;
      while k < |opts|
        invariant k <= |opts| && CommandLineEnding(opts[..k]) == Ready
        invariant forall f :: TextOf(f) == FirstText(opts[..k], f)
        invariant forall f :: IntOf(f) == LastInt(opts[..k], f)
      {
        SnocOption(opts[..k], opts[k]);
        assert opts[..k + 1] == opts[..k] + [opts[k]];
        match opts[k] {
          case Text(f, argument) => AssignText(f, argument);
          case Number(f, digits) => OverwriteInt(f, ToInt(digits));
          case Help =>
            EndingFixed(opts, k);
            return ShownHelp;
          case Unknown =>
            EndingFixed(opts, k);
            return BadOption;
        }
        k := k + 1;
      }
      assert opts[..k] == opts;
      return Ready;
    }

    method ReadFile(file: File) returns (ending: Ending)
      modifies this
      ensures ending == if file == Malformed then BadFile else Ready
      ensures ending == Ready ==> forall f :: TextOf(f) == Or(old(TextOf(f)), InFile(file, f))
      ensures ending == Ready ==> forall f :: IntOf(f) == OrInt(old(IntOf(f)), IntInFile(file, f))
    {
      match file {
        case Absent => return Ready;
        case Malformed => return BadFile;
        case Settings(_) =>
          LookUpText(file, ServerRoot);
          LookUpText(file, LogFile);
          LookUpText(file, File404);
          LookUpText(file, DefaultDocument);
          LookUpText(file, ServerName);
          LookUpInt(file, MaxConnections);
          LookUpInt(file, Port);
          LookUpInt(file, ServerMode);
          return Ready;
      }
    }

    method LookUpText(file: File, f: TextField)
      modifies this
      ensures forall g ::
        TextOf(g) == if g == f then Or(old(TextOf(g)), InFile(file, g)) else old(TextOf(g))
      ensures forall g :: IntOf(g) == old(IntOf(g))
    {
      var found := InFile(file, f);
      if found.Some? { AssignText(f, found.value); }
    }

    method LookUpInt(file: File, f: IntField)
      modifies this
      ensures forall g ::
        IntOf(g) == if g == f then OrInt(old(IntOf(g)), IntInFile(file, g)) else old(IntOf(g))
      ensures forall g :: TextOf(g) == old(TextOf(g))
    {
      AssignInt(f, IntInFile(file, f));
    }

    method ReadEnvironment(env: Environment)
      modifies this
      ensures forall f :: TextOf(f) == Or(old(TextOf(f)), InEnvironment(env, f))
      ensures forall f :: IntOf(f) == OrInt(old(IntOf(f)), IntInEnvironment(env, f))
    {
      FromVariable(env, ServerRoot);
      FromVariable(env, LogFile);
      FromVariable(env, File404);
      FromVariable(env, ServerName);
      FromVariable(env, DefaultDocument);
      AssignInt(MaxConnections, IntInEnvironment(env, MaxConnections));
      AssignInt(Port, IntInEnvironment(env, Port));
      AssignInt(ServerMode, IntInEnvironment(env, ServerMode));
    }

    method FromVariable(env: Environment, f: TextField)
      modifies this
      ensures forall g ::
        TextOf(g) == if g == f then Or(old(TextOf(g)), InEnvironment(env, g)) else old(TextOf(g))
      ensures forall g :: IntOf(g) == old(IntOf(g))
    {
      var found := InEnvironment(env, f);
      if found.Some? { AssignText(f, found.value); }
    }

    /** The port is never zero after its default, so the second test for zero never holds. */
    method ReadDefaults()
      modifies this
      ensures forall f :: TextOf(f) == Or(old(TextOf(f)), Some(Default(f)))
      ensures forall f :: IntOf(f) == OrInt(old(IntOf(f)), IntDefault(f))
    {
      DefaultTexts();
      AssignInt(MaxConnections, IntDefault(MaxConnections));
      AssignInt(Port, IntDefault(Port));
      AssignInt(ServerMode, IntDefault(ServerMode));
    }

    method DefaultTexts()
      modifies this
      ensures forall f :: TextOf(f) == Or(old(TextOf(f)), Some(Default(f)))
      ensures forall f :: IntOf(f) == old(IntOf(f))
    {
      AssignText(ServerRoot, Default(ServerRoot));
      AssignText(LogFile, Default(LogFile));
      AssignText(File404, Default(File404));
      AssignText(ServerName, Default(ServerName));
      AssignText(DefaultDocument, Default(DefaultDocument));
    }
  }

  lemma FieldsNamed(config: Config)
    ensures config.TextOf(ServerRoot) == config.serverRoot && config.TextOf(LogFile) == config.logFile
    ensures config.TextOf(File404) == config.file404 && config.TextOf(ServerName) == config.serverName
    ensures config.TextOf(DefaultDocument) == config.defaultDocument
    ensures config.IntOf(MaxConnections) == config.maxConnections
    ensures config.IntOf(Port) == config.port && config.IntOf(ServerMode) == config.serverMode
  {
  }

  method ReadConfiguration(opts: seq<Opt>, file: File, env: Environment)
    returns (ending: Ending, config: Config)
    ensures fresh(config)
    ensures ending ==
      if CommandLineEnding(opts) != Ready then CommandLineEnding(opts)
      else if file == Malformed then BadFile else Ready
    ensures ending == Ready ==> forall f :: config.TextOf(f) == Some(TextValue(opts, file, env, f))
    ensures ending == Ready ==> forall f :: config.IntOf(f) == IntValue(opts, file, env, f)
    ensures ending == Ready ==>
      && config.serverRoot == Some(TextValue(opts, file, env, ServerRoot))
      && config.logFile == Some(TextValue(opts, file, env, LogFile))
      && config.file404 == Some(TextValue(opts, file, env, File404))
      && config.serverName == Some(TextValue(opts, file, env, ServerName))
      && config.defaultDocument == Some(TextValue(opts, file, env, DefaultDocument))
      && config.maxConnections == IntValue(opts, file, env, MaxConnections)
      && config.port == IntValue(opts, file, env, Port)
      && config.serverMode == IntValue(opts, file, env, ServerMode)
  {
    hide Config.TextOf, Config.IntOf, FirstText, LastInt, InFile, IntInFile, InEnvironment;
    hide IntInEnvironment, Default, IntDefault, CommandLineEnding;
    config := new Config();
    ending := config.ReadCommandLine(opts);
    if ending == Ready {
      ending := config.ReadFile(file);
      if ending == Ready {
        config.ReadEnvironment(env);
        config.ReadDefaults();
        FieldsNamed(config);
      }
    }
  }

  // ---- The option loop ----

  function CommandLineEnding(opts: seq<Opt>): Ending {
    if opts == [] then Ready
    else
      match opts[0]
      case Help => ShownHelp
      case Unknown => BadOption
      case _ => CommandLineEnding(opts[1..])
  }

  lemma {:induction false} SnocOption(opts: seq<Opt>, opt: Opt)
    ensures forall f ::
      FirstText(opts + [opt], f) == Or(FirstText(opts, f),
        if opt.Text? && opt.field == f then Some(opt.argument) else None)
    ensures forall f ::
      LastInt(opts + [opt], f)
        == if opt.Number? && opt.number == f then ToInt(opt.digits) else LastInt(opts, f)
    ensures CommandLineEnding(opts) == Ready && !opt.Help? && !opt.Unknown? ==>
      CommandLineEnding(opts + [opt]) == Ready
  {
    assert (opts + [opt])[..|opts|] == opts;
    if opts == [] {
      assert (opts + [opt])[1..] == [];
    } else {
      assert (opts + [opt])[1..] == opts[1..] + [opt];
      SnocOption(opts[1..], opt);
    }
  }

  lemma {:induction false} EndingFixed(opts: seq<Opt>, k: nat)
    requires k < |opts| && CommandLineEnding(opts[..k]) == Ready
    requires opts[k].Help? || opts[k].Unknown?
    ensures CommandLineEnding(opts) == if opts[k].Help? then ShownHelp else BadOption
  {
    if k == 0 {
    } else {
      assert opts[..k][0] == opts[0] && opts[..k][1..] == opts[1..][..k - 1];
      EndingFixed(opts[1..], k - 1);
    }
  }

  /** An option list is read to its end iff it has no help or unknown option. */
  lemma {:induction false} EndingReady(opts: seq<Opt>)
    ensures CommandLineEnding(opts) == Ready <==>
      forall k :: 0 <= k < |opts| ==> opts[k].Text? || opts[k].Number?
  {
    if opts == [] {
    } else {
      EndingReady(opts[1..]);
      assert forall k :: 0 < k < |opts| ==> opts[k] == opts[1..][k - 1];
      assert forall k :: 0 <= k < |opts| - 1 ==> opts[1..][k] == opts[k + 1];
    }
  }

  /** The first help or unknown option decides how reading ends. */
  lemma EndingDecided(pre: seq<Opt>, opt: Opt, post: seq<Opt>)
    requires forall k :: 0 <= k < |pre| ==> pre[k].Text? || pre[k].Number?
    ensures opt == Help ==> CommandLineEnding(pre + [opt] + post) == ShownHelp
    ensures opt == Unknown ==> CommandLineEnding(pre + [opt] + post) == BadOption
  {
    var opts := pre + [opt] + post;
    EndingReady(pre);
    assert opts[..|pre|] == pre && opts[|pre|] == opt;
    if opt.Help? || opt.Unknown? {
      EndingFixed(opts, |pre|);
    }
  }

  // ---- What precedence means ----

  function TextLayers(opts: seq<Opt>, file: File, env: Environment, f: TextField)
    : seq<Option<string>>
  {
    [FirstText(opts, f), InFile(file, f), InEnvironment(env, f), Some(Default(f))]
  }

  function IntLayers(opts: seq<Opt>, file: File, env: Environment, f: IntField): seq<int> {
    [LastInt(opts, f), IntInFile(file, f), IntInEnvironment(env, f), IntDefault(f)]
  }

  /** A text field gets the value of the first layer that sets it. */
  lemma TextPrecedence(opts: seq<Opt>, file: File, env: Environment, f: TextField, value: string)
    ensures TextValue(opts, file, env, f) == value <==>
      exists k :: 0 <= k < 4 && TextLayers(opts, file, env, f)[k] == Some(value)
        && forall j :: 0 <= j < k ==> TextLayers(opts, file, env, f)[j] == None
  {
    var layers := TextLayers(opts, file, env, f);
    var k := if layers[0].Some? then 0 else if layers[1].Some? then 1
             else if layers[2].Some? then 2 else 3;
    assert layers[k] == Some(TextValue(opts, file, env, f));
    assert forall j :: 0 <= j < k ==> layers[j] == None;
  }

  /** A number gets the first non-zero value, so none is left at zero. */
  lemma IntPrecedence(opts: seq<Opt>, file: File, env: Environment, f: IntField, value: int)
    ensures IntValue(opts, file, env, f) == value <==>
      exists k :: 0 <= k < 4 && IntLayers(opts, file, env, f)[k] == value != 0
        && forall j :: 0 <= j < k ==> IntLayers(opts, file, env, f)[j] == 0
  {
    var layers := IntLayers(opts, file, env, f);
    var k := if layers[0] != 0 then 0 else if layers[1] != 0 then 1
             else if layers[2] != 0 then 2 else 3;
    assert layers[k] == IntValue(opts, file, env, f) != 0;
    assert forall j :: 0 <= j < k ==> layers[j] == 0;
  }

  predicate GivesText(opt: Opt, f: TextField) { opt.Text? && opt.field == f }

  predicate GivesInt(opt: Opt, f: IntField) { opt.Number? && opt.number == f }

  predicate IsFirstText(opts: seq<Opt>, f: TextField, i: nat, value: string) {
    && i < |opts| && GivesText(opts[i], f) && opts[i].argument == value
    && forall j :: 0 <= j < i ==> !GivesText(opts[j], f)
  }

  predicate IsLastInt(opts: seq<Opt>, f: IntField, i: nat) {
    i < |opts| && GivesInt(opts[i], f) && forall j :: i < j < |opts| ==> !GivesInt(opts[j], f)
  }

  /** The first text option of a field counts. */
  lemma {:induction false} FirstTextWins(opts: seq<Opt>, f: TextField) returns (i: nat)
    ensures FirstText(opts, f).Some? ==> IsFirstText(opts, f, i, FirstText(opts, f).value)
    ensures FirstText(opts, f) == None ==> forall j :: 0 <= j < |opts| ==> !GivesText(opts[j], f)
  {
    if opts == [] || GivesText(opts[0], f) {
      i := 0;
    } else {
      var k := FirstTextWins(opts[1..], f);
      i := k + 1;
      assert forall j :: 0 < j < |opts| ==> opts[j] == opts[1..][j - 1];
    }
  }

  /** The last number option of a field counts, even when it says zero. */
  lemma {:induction false} LastIntWins(opts: seq<Opt>, f: IntField) returns (i: int)
    ensures i < 0 ==> LastInt(opts, f) == 0 && forall j :: 0 <= j < |opts| ==> !GivesInt(opts[j], f)
    ensures i >= 0 ==> IsLastInt(opts, f, i) && LastInt(opts, f) == ToInt(opts[i].digits)
  {
    hide ToInt;
    if opts == [] {
      i := -1;
    } else if GivesInt(opts[|opts| - 1], f) {
      i := |opts| - 1;
    } else {
      i := LastIntWins(opts[..|opts| - 1], f);
    }
  }

  // ---- Names, defaults and numbers as a user sees them ----

  /** Key in the file, variable and default of a text field. */
  predicate TextNames(f: TextField, key: string, variable: string, standard: string) {
    match f
    case ServerRoot => key == "server_root" && variable == "DC_SERVER_ROOT" && standard == "./"
    case LogFile =>
      key == "logfile_location" && variable == "DC_LOG_FILE" && standard == "server.log"
    case File404 => key == "error_404" && variable == "DC_404_FILE" && standard == "error_404.html"
    case ServerName => key == "server_name" && variable == "DC_SERVER_NAME" && standard == "ACJ Server"
    case DefaultDocument =>
      key == "default_document" && variable == "DC_DEFAULT_DOCUMENT" && standard == "index.html"
  }

  predicate IntNames(f: IntField, key: string, variable: string, standard: int) {
    match f
    case MaxConnections =>
      key == "max_connections" && variable == "DC_MAX_CONNECTIONS" && standard == 10
    case Port => key == "port" && variable == "DC_SERVER_PORT" && standard == 80
    case ServerMode => key == "server_mode" && variable == "DC_SERVER_MODE" && standard == 1
  }

  /** Without an option for a text field: the file's string, then the variable, then the default. */
  lemma TextSources(opts: seq<Opt>, file: File, env: Environment, f: TextField,
                    key: string, variable: string, standard: string)
    requires TextNames(f, key, variable, standard)
    requires forall k :: 0 <= k < |opts| ==> !GivesText(opts[k], f)
    ensures TextValue(opts, file, env, f) ==
      if file.Settings? && key in file.entries && file.entries[key].Str? then file.entries[key].text
      else if variable in env then env[variable] else standard
  {
    hide GivesText;
    var i := FirstTextWins(opts, f);
    match f
    case ServerRoot => case LogFile => case File404 => case ServerName => case DefaultDocument =>
  }

  /** The same for numbers, where a zero counts as not set. */
  lemma IntSources(opts: seq<Opt>, file: File, env: Environment, f: IntField,
                   key: string, variable: string, standard: int)
    requires IntNames(f, key, variable, standard)
    requires forall k :: 0 <= k < |opts| ==> !GivesInt(opts[k], f)
    ensures IntValue(opts, file, env, f) ==
      if file.Settings? && key in file.entries && file.entries[key].Int?
        && file.entries[key].value != 0 then file.entries[key].value
      else if variable in env && ToInt(env[variable]) != 0 then ToInt(env[variable]) else standard
  {
    hide ToInt, GivesInt;
    var i := LastIntWins(opts, f);
    match f case MaxConnections => case Port => case ServerMode =>
  }

  /** The first option for a text field settles it. */
  lemma OptionTextRead(pre: seq<Opt>, x: string, post: seq<Opt>, file: File, env: Environment,
                       f: TextField)
    requires forall k :: 0 <= k < |pre| ==> !GivesText(pre[k], f)
    ensures TextValue(pre + [Text(f, x)] + post, file, env, f) == x
  {
    var opts := pre + [Text(f, x)] + post;
    assert GivesText(opts[|pre|], f);
    assert forall k :: 0 <= k < |pre| ==> opts[k] == pre[k];
    var i := FirstTextWins(opts, f);
    assert i == |pre|;
  }

  /** The last option for a number settles it: a positive number that fits 32 bits, printed in
    * decimal, is the number the program gets; one that does not fit is not. */
  lemma OptionNumberRead(pre: seq<Opt>, n: nat, post: seq<Opt>, file: File, env: Environment,
                         f: IntField)
    requires 0 < n && forall k :: 0 <= k < |post| ==> !GivesInt(post[k], f)
    ensures n <= 0x7fff_ffff ==> IntValue(pre + [Opt.Number(f, Digits(n))] + post, file, env, f) == n
    ensures n > 0x7fff_ffff ==> LastInt(pre + [Opt.Number(f, Digits(n))] + post, f) != n
  {
    hide ToInt, Digits;
    var opts := pre + [Opt.Number(f, Digits(n))] + post;
    assert GivesInt(opts[|pre|], f);
    assert forall k :: |pre| < k < |opts| ==> opts[k] == post[k - |pre| - 1];
    var i := LastIntWins(opts, f);
    assert i == |pre|;
    PlainRead(n);
  }

  /** A variable with a positive number that fits is read as that number when there is no option
    * for it and no file. */
  lemma VariableNumberRead(opts: seq<Opt>, env: Environment, f: IntField, n: nat,
                           key: string, variable: string, standard: int)
    requires 0 < n <= 0x7fff_ffff && IntNames(f, key, variable, standard)
    requires forall k :: 0 <= k < |opts| ==> !GivesInt(opts[k], f)
    ensures IntValue(opts, Absent, env[variable := Digits(n)], f) == n
  {
    hide ToInt, Digits;
    PlainRead(n);
    IntSources(opts, Absent, env[variable := Digits(n)], f, key, variable, standard);
  }

  /** The variable DC_PORT that the usage text names has no effect; DC_SERVER_PORT is read. */
  lemma DocumentedPortIgnored(opts: seq<Opt>, file: File, env: Environment, value: string)
    ensures forall f ::
      IntValue(opts, file, env["DC_PORT" := value], f) == IntValue(opts, file, env, f)
    ensures forall f ::
      TextValue(opts, file, env["DC_PORT" := value], f) == TextValue(opts, file, env, f)
  {
    forall f: IntField ensures IntVariable(f) != "DC_PORT" {
      match f case MaxConnections => case Port => case ServerMode =>
    }
    forall f: TextField ensures Variable(f) != "DC_PORT" {
      match f
      case ServerRoot => case LogFile => case File404 => case ServerName => case DefaultDocument =>
    }
  }
}
