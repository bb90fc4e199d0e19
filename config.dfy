/** internal/config/config.go: the project's `config.yaml`, whose only key is
    `require`, the list of names of optional global playbooks to include. */
module Config {
  import opened Wrappers
  import opened Text
  import opened Fs

  datatype ProjectConfig = ProjectConfig(require: seq<string>)

  /** What `yaml.Unmarshal` makes of the file: an error, or the `require`
      value, `None` standing for a nil slice (the key is absent or null). */
  type ConfigDecoder = string -> Result<Option<seq<string>>>

  const ConfigFileName := "config.yaml"

  /** `ProjectConfig.HasRequire`: an exact, case-sensitive linear search. */
  method HasRequire(c: ProjectConfig, name: string) returns (found: bool)
    ensures found <==> name in c.require
  {
    for i := 0 to |c.require|
      invariant name !in c.require[..i]
    {
      if c.require[i] == name {
        return true;
      }
    }
    assert c.require[..|c.require|] == c.require;
    return false;
  }

  function ConfigPath(projectDir: string): string {
    JoinPath(projectDir, ConfigFileName)
  }

  /** The result of `LoadProjectConfig` for the filesystem `fs`. */
  function LoadedConfig(fs: FileSystem, projectDir: string, decode: ConfigDecoder): (r: Result<ProjectConfig>)
    ensures Lookup(fs, ConfigPath(projectDir)).Absent? ==> r == Success(ProjectConfig([]))
    ensures Lookup(fs, ConfigPath(projectDir)).StatError? ==>
      r == Failure("failed to stat config file: " + Lookup(fs, ConfigPath(projectDir)).err)
    ensures var node := Lookup(fs, ConfigPath(projectDir));
      node.Present? && node.content.Failure? ==>
        r == Failure("failed to read config file: " + node.content.error)
    ensures var node := Lookup(fs, ConfigPath(projectDir));
      node.Present? && node.content.Success? ==>
        match decode(node.content.value)
        case Failure(e) => r == Failure("failed to parse config YAML: " + e)
        case Success(req) => r == Success(ProjectConfig(req.GetOr([])))
  {
    match Lookup(fs, ConfigPath(projectDir))
    case Absent => Success(ProjectConfig([]))
    case StatError(e) => Failure("failed to stat config file: " + e)
    case Present(_, _, read) =>
      match read
      case Failure(e) => Failure("failed to read config file: " + e)
      case Success(content) =>
        match decode(content)
        case Failure(e) => Failure("failed to parse config YAML: " + e)
        case Success(None) => Success(ProjectConfig([]))
        case Success(Some(req)) => Success(ProjectConfig(req))
  }

  /** `LoadProjectConfig`: stat, read, decode, then replace a nil list by an empty one. */
  method LoadProjectConfig(fs: FileSystem, projectDir: string, decode: ConfigDecoder)
    returns (r: Result<ProjectConfig>)
    ensures r == LoadedConfig(fs, projectDir, decode)
  {
    var configPath := ConfigPath(projectDir);
    var node := Lookup(fs, configPath);
    if node.Absent? {
      return Success(ProjectConfig([]));
    } else if node.StatError? {
      return Failure("failed to stat config file: " + node.err);
    }
    var content := node.content;
    if content.Failure? {
      return Failure("failed to read config file: " + content.error);
    }
    var decoded := decode(content.value);
    if decoded.Failure? {
      return Failure("failed to parse config YAML: " + decoded.error);
    }
    var require := decoded.value;
    if require.None? {
      require := Some([]);
    }
    return Success(ProjectConfig(require.value));
  }
}
