/** The settings the bot reads from its environment at start-up, and the check that all
    required ones are present. The environment is a map from variable name to value; a
    variable that is absent and one that is set to the empty string count alike as unset,
    as Python's truthiness test does. */
module Config {
  import opened Wrappers

  type Env = map<string, string>

  /** `os.environ.get(name)` */
  function Get(env: Env, name: string): Option<string>
  {
    if name in env then Some(env[name]) else None
  }

  /** A setting is usable when it is neither missing nor empty. */
  predicate Filled(v: Option<string>)
  {
    v.Some? && v.value != ""
  }

  const DefaultDbDir: string := "/var/lib/beanbot"

  /** Where the bot keeps its own data: `DB_DIR`, or the default when that is unset. */
  function DbDir(env: Env): (dir: string)
    ensures dir != ""
    ensures Filled(Get(env, "DB_DIR")) ==> dir == env["DB_DIR"]
    ensures !Filled(Get(env, "DB_DIR")) ==> dir == DefaultDbDir
  {
    if Filled(Get(env, "DB_DIR")) then env["DB_DIR"] else DefaultDbDir
  }

  /** `LOG_VERBOSE` switches verbose logging on with any of the three spellings the bot
      accepts, and with nothing else. */
  function Verbose(env: Env): (on: bool)
    ensures on <==> "LOG_VERBOSE" in env && env["LOG_VERBOSE"] in ["True", "true", "1"]
  {
    Get(env, "LOG_VERBOSE") in [Some("True"), Some("true"), Some("1")]
  }

  datatype LogLevel = Debug | Info

  function LogLvl(env: Env): (lvl: LogLevel)
    ensures lvl == Debug <==> Verbose(env)
  {
    if Verbose(env) then Debug else Info
  }

  /** The settings `check()` requires, in the order it tests them. */
  const Required: seq<string> := ["BEAN_CURRENCY", "BEAN_MAIN_FILE", "BEAN_PATH", "TELEGRAM_API_TOKEN"]

  function ErrorText(name: string): string
  {
    "Configuration error: " + name + " is invalid (value is empty)."
  }

  /** `check()`: the error for the first required setting that is unset, or `None` when
      all of them are set. */
  function Check(env: Env): (err: Option<string>)
    ensures err.None? <==> forall i :: 0 <= i < |Required| ==> Filled(Get(env, Required[i]))
    ensures err.Some? ==>
      exists i :: 0 <= i < |Required| && !Filled(Get(env, Required[i])) && err.value == ErrorText(Required[i]) &&
        forall j :: 0 <= j < i ==> Filled(Get(env, Required[j]))
  {
    assert Required[0] == "BEAN_CURRENCY" && Required[1] == "BEAN_MAIN_FILE";
    assert Required[2] == "BEAN_PATH" && Required[3] == "TELEGRAM_API_TOKEN";
    if !Filled(Get(env, "BEAN_CURRENCY")) then Some(ErrorText("BEAN_CURRENCY"))
    else if !Filled(Get(env, "BEAN_MAIN_FILE")) then Some(ErrorText("BEAN_MAIN_FILE"))
    else if !Filled(Get(env, "BEAN_PATH")) then Some(ErrorText("BEAN_PATH"))
    else if !Filled(Get(env, "TELEGRAM_API_TOKEN")) then Some(ErrorText("TELEGRAM_API_TOKEN"))
    else None
  }

  /** An error text names exactly one setting, so the error `check()` returns identifies
      the setting that is missing. */
  lemma ErrorTextNamesSetting(a: string, b: string)
    requires ErrorText(a) == ErrorText(b)
    ensures a == b
  {
    var pre := "Configuration error: ";
    var post := " is invalid (value is empty).";
    assert ErrorText(a)[|pre|..|pre| + |a|] == a;
    assert |a| == |b|;
    assert ErrorText(b)[|pre|..|pre| + |b|] == b;
  }
}
