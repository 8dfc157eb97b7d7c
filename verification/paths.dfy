/**
 * Where the application keeps its files. A path is a sequence of components;
 * the platform name, the environment variables, the home directory and the
 * PyInstaller markers are inputs. Directory creation is not modelled.
 */
module Paths {
  import opened Values

  type Path = seq<string>

  const AppName := "MeshtasticUI"
  const DatabaseFile := "meshpy_data.db"
  const ConfigFile := "config.json"

  /** What the path functions read from the running process. */
  datatype Env = Env(
    system: string,            // platform.system()
    environ: Entries,          // os.environ
    home: Path,                // Path.home()
    frozen: Value,             // getattr(sys, 'frozen', False)
    hasMeipass: bool,          // hasattr(sys, '_MEIPASS')
    executableParent: Path,    // Path(sys.executable).parent
    projectRoot: Path          // Path(__file__).parent.parent
  )

  /** True when a path lies inside (or is) another. */
  predicate Under(p: Path, dir: Path) {
    |dir| <= |p| && p[..|dir|] == dir
  }

  /** `os.environ.get(name, '')`; a non-string binding cannot occur in an environment. */
  function EnvVar(env: Env, name: string): (r: string)
    ensures Has(env.environ, name) && Get(env.environ, name, Null).Str? ==> r == Get(env.environ, name, Null).s
    ensures !Has(env.environ, name) ==> r == ""
  {
    var v := Get(env.environ, name, Str(""));
    if v.Str? then v.s else ""
  }

  /** `is_executable()`: running from a PyInstaller bundle. */
  predicate IsExecutable(env: Env) {
    Truthy(env.frozen) && env.hasMeipass
  }

  /** `get_executable_dir()`. */
  function ExecutableDir(env: Env): (r: Path)
    ensures IsExecutable(env) ==> r == env.executableParent
    ensures !IsExecutable(env) ==> r == env.projectRoot
  {
    if IsExecutable(env) then env.executableParent else env.projectRoot
  }

  /** `os.environ.get(name, '')`, or `fallback` below the home directory when that is empty. */
  function BaseDir(env: Env, name: string, fallback: seq<string>): (r: Path)
    ensures EnvVar(env, name) != "" ==> r == [EnvVar(env, name)]
    ensures EnvVar(env, name) == "" ==> r == env.home + fallback
  {
    var b := EnvVar(env, name);
    if b != "" then [b] else env.home + fallback
  }

  /** `get_user_data_dir()`. */
  function UserDataDir(env: Env): (r: Path)
    ensures |r| > 0 && r[|r| - 1] == AppName
    ensures env.system == "Windows" ==> r == BaseDir(env, "APPDATA", ["AppData", "Roaming"]) + [AppName]
    ensures env.system == "Darwin" ==> r == env.home + ["Library", "Application Support", AppName]
    ensures env.system != "Windows" && env.system != "Darwin" ==>
      r == BaseDir(env, "XDG_DATA_HOME", [".local", "share"]) + [AppName]
  {
    if env.system == "Windows" then BaseDir(env, "APPDATA", ["AppData", "Roaming"]) + [AppName]
    else if env.system == "Darwin" then env.home + ["Library", "Application Support"] + [AppName]
    else BaseDir(env, "XDG_DATA_HOME", [".local", "share"]) + [AppName]
  }

  /** `get_config_dir()`. */
  function ConfigDir(env: Env): (r: Path)
    ensures |r| > 0 && r[|r| - 1] == AppName
    ensures env.system == "Windows" ==> r == UserDataDir(env)
    ensures env.system == "Darwin" ==> r == env.home + ["Library", "Preferences", AppName]
    ensures env.system != "Windows" && env.system != "Darwin" ==>
      r == BaseDir(env, "XDG_CONFIG_HOME", [".config"]) + [AppName]
  {
    if env.system == "Windows" then UserDataDir(env)
    else if env.system == "Darwin" then env.home + ["Library", "Preferences"] + [AppName]
    else BaseDir(env, "XDG_CONFIG_HOME", [".config"]) + [AppName]
  }

  /** `get_data_directory()`. */
  function DataDirectory(env: Env): (r: Path)
    ensures IsExecutable(env) ==> r == UserDataDir(env)
    ensures !IsExecutable(env) ==> r == env.projectRoot + ["database"]
  {
    if IsExecutable(env) then UserDataDir(env) else ExecutableDir(env) + ["database"]
  }

  /** `get_database_path()`. */
  function DatabasePath(env: Env): (r: Path)
    ensures |r| > 0 && r[|r| - 1] == DatabaseFile
    ensures r[..|r| - 1] == DataDirectory(env)
  {
    DataDirectory(env) + [DatabaseFile]
  }

  /** `get_logs_directory()`. */
  function LogsDirectory(env: Env): (r: Path)
    ensures IsExecutable(env) ==> r == UserDataDir(env) + ["logs"]
    ensures !IsExecutable(env) ==> r == env.projectRoot + ["logs"]
  {
    if IsExecutable(env) then UserDataDir(env) + ["logs"] else ExecutableDir(env) + ["logs"]
  }

  /** `get_config_file_path()`. */
  function ConfigFilePath(env: Env): (r: Path)
    ensures IsExecutable(env) ==> r == ConfigDir(env) + [ConfigFile]
    ensures !IsExecutable(env) ==> r == env.projectRoot + [ConfigFile]
  {
    if IsExecutable(env) then ConfigDir(env) + [ConfigFile] else ExecutableDir(env) + [ConfigFile]
  }

  /**
   * In a bundled build everything the application writes lives under the
   * per-user data directory except, on macOS and Linux, the configuration
   * file; on Windows that too.
   */
  lemma BundledFilesUnderUserData(env: Env)
    requires IsExecutable(env)
    ensures Under(DatabasePath(env), UserDataDir(env))
    ensures Under(LogsDirectory(env), UserDataDir(env))
    ensures env.system == "Windows" ==> Under(ConfigFilePath(env), UserDataDir(env))
  {
  }

  /**
   * Run from a source checkout, the database, the logs and the configuration
   * file all live under the project root, whatever the platform.
   */
  lemma ScriptFilesUnderProjectRoot(env: Env)
    requires !IsExecutable(env)
    ensures Under(DatabasePath(env), env.projectRoot)
    ensures Under(LogsDirectory(env), env.projectRoot)
    ensures Under(ConfigFilePath(env), env.projectRoot)
    ensures ConfigFilePath(env)[..|ConfigFilePath(env)| - 1] == ExecutableDir(env)
  {
  }

  /** On macOS the configuration and the data directories differ. */
  lemma ConfigDirSeparateOnMacOS(env: Env)
    requires env.system == "Darwin"
    ensures ConfigDir(env) != UserDataDir(env)
  {
    var c := ConfigDir(env);
    var d := UserDataDir(env);
    assert c[|env.home| + 1] == "Preferences";
    assert d[|env.home| + 1] == "Application Support";
  }

  /**
   * On Linux and the other platforms both directories append the
   * application name to a base, so they coincide exactly when the two bases
   * do: never with both XDG variables unset, always when both name the same
   * directory.
   */
  lemma ConfigDirSeparateOnLinux(env: Env)
    requires env.system != "Windows" && env.system != "Darwin"
    ensures ConfigDir(env) == UserDataDir(env) <==>
      BaseDir(env, "XDG_CONFIG_HOME", [".config"]) == BaseDir(env, "XDG_DATA_HOME", [".local", "share"])
    ensures EnvVar(env, "XDG_CONFIG_HOME") == "" && EnvVar(env, "XDG_DATA_HOME") == "" ==>
      ConfigDir(env) != UserDataDir(env)
    ensures EnvVar(env, "XDG_CONFIG_HOME") != "" && EnvVar(env, "XDG_CONFIG_HOME") == EnvVar(env, "XDG_DATA_HOME") ==>
      ConfigDir(env) == UserDataDir(env)
  {
    var a := BaseDir(env, "XDG_CONFIG_HOME", [".config"]);
    var b := BaseDir(env, "XDG_DATA_HOME", [".local", "share"]);
    var c, d := ConfigDir(env), UserDataDir(env);
    if c == d {
      assert a == c[..|c| - 1];
      assert b == d[..|d| - 1];
    }
    if EnvVar(env, "XDG_CONFIG_HOME") == "" && EnvVar(env, "XDG_DATA_HOME") == "" {
      assert |a| != |b|;
    }
  }
}
