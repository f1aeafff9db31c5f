/**
 How the workspace server settles its listening configuration at start-up
 (`run` in lapdev-ws/src/server.rs): the configuration file path defaults to
 `/etc/lapdev-ws.conf`, a file that cannot be read or parsed stops start-up,
 and every setting the file leaves out takes a fixed default.
 */
module Config {
  import opened Wrappers

  /** A TCP port number (16 bits). */
  type U16 = x: int | 0 <= x < 0x1_0000

  const DefaultConfigFile: string := "/etc/lapdev-ws.conf"
  const DefaultBind: string := "0.0.0.0"
  const DefaultWsPort: U16 := 6123
  const DefaultInterWsPort: U16 := 6122

  /** The configuration file's contents: each key may be absent. */
  datatype WsConfig = WsConfig(bind: Option<string>, wsPort: Option<U16>, interWsPort: Option<U16>)

  /** The settings the server listens with. */
  datatype Settings = Settings(bind: string, wsPort: U16, interWsPort: U16)

  /** Why start-up stopped before listening. */
  datatype StartupError =
    | CannotReadConfig(path: string)
    | WrongConfigFormat

  /** The configuration file to read: the one named on the command line, else the default path. */
  function ConfigFile(cliPath: Option<string>): (path: string)
    ensures cliPath.Some? ==> path == cliPath.value
    ensures cliPath.None? ==> path == DefaultConfigFile
  {
    cliPath.UnwrapOr(DefaultConfigFile)
  }

  /**
   The settings a parsed configuration gives: a field that is present is
   used unchanged, a missing one takes its default.
   */
  function Resolve(c: WsConfig): (s: Settings)
    ensures s.bind == (if c.bind.Some? then c.bind.value else DefaultBind)
    ensures s.wsPort == (if c.wsPort.Some? then c.wsPort.value else DefaultWsPort)
    ensures s.interWsPort == (if c.interWsPort.Some? then c.interWsPort.value else DefaultInterWsPort)
  {
    Settings(c.bind.UnwrapOr(DefaultBind), c.wsPort.UnwrapOr(DefaultWsPort), c.interWsPort.UnwrapOr(DefaultInterWsPort))
  }

  /** A configuration file that spells out every setting. */
  function Pin(s: Settings): WsConfig {
    WsConfig(Some(s.bind), Some(s.wsPort), Some(s.interWsPort))
  }

  /**
   Spelling out the resolved settings changes nothing, every settings value
   is reachable, and an empty file gives exactly the defaults.
   */
  lemma ResolveIsStable(c: WsConfig, s: Settings)
    ensures Resolve(Pin(s)) == s
    ensures Resolve(Pin(Resolve(c))) == Resolve(c)
    ensures Resolve(WsConfig(None, None, None)) == Settings(DefaultBind, DefaultWsPort, DefaultInterWsPort)
  {
  }

  /** Each setting depends only on its own key: changing one key leaves the other two settings alone. */
  lemma ResolveFieldsIndependent(c: WsConfig, bind: Option<string>, wsPort: Option<U16>, interWsPort: Option<U16>)
    ensures Resolve(c.(bind := bind)).wsPort == Resolve(c).wsPort
    ensures Resolve(c.(bind := bind)).interWsPort == Resolve(c).interWsPort
    ensures Resolve(c.(wsPort := wsPort)).bind == Resolve(c).bind
    ensures Resolve(c.(wsPort := wsPort)).interWsPort == Resolve(c).interWsPort
    ensures Resolve(c.(interWsPort := interWsPort)).bind == Resolve(c).bind
    ensures Resolve(c.(interWsPort := interWsPort)).wsPort == Resolve(c).wsPort
  {
  }

  /**
   Start-up up to listening: read the configuration file (`read` gives its
   text, or `None` when it cannot be read), parse it (`parse` gives the
   configuration, or `None` for a malformed file) and resolve the defaults.
   */
  function LoadSettings(cliPath: Option<string>, read: string -> Option<string>, parse: string -> Option<WsConfig>)
    : (r: Result<Settings, StartupError>)
    ensures read(ConfigFile(cliPath)).None? <==> r == Failure(CannotReadConfig(ConfigFile(cliPath)))
    ensures r == Failure(WrongConfigFormat) <==>
      read(ConfigFile(cliPath)).Some? && parse(read(ConfigFile(cliPath)).value).None?
    ensures r.Success? ==> exists c :: Some(c) == parse(read(ConfigFile(cliPath)).value) && r.value == Resolve(c)
    ensures read(ConfigFile(cliPath)).Some? && parse(read(ConfigFile(cliPath)).value).Some? ==>
      r == Success(Resolve(parse(read(ConfigFile(cliPath)).value).value))
  {
    var path := ConfigFile(cliPath);
    match read(path)
    case None => Failure(CannotReadConfig(path))
    case Some(content) =>
      match parse(content)
      case None => Failure(WrongConfigFormat)
      case Some(c) => Success(Resolve(c))
  }
}
