/**
 * Configuration resolution for the backend: each setting comes from an environment
 * variable when that is set and non-empty, and from the configuration map otherwise.
 * Both the environment and the map are parameters; nothing here reads process state.
 */
module Config {
  import opened Wrappers
  import opened Errors
  import Numbers

  const EnvContainer := "AZURE_BLOB_CONTAINER"
  const EnvAccountName := "AZURE_ACCOUNT_NAME"
  const EnvAccountKey := "AZURE_ACCOUNT_KEY"
  const EnvEnvironment := "AZURE_ENVIRONMENT"
  const EnvArmEndpoint := "AZURE_ARM_ENDPOINT"

  const KeyContainer := "container"
  const KeyAccountName := "accountName"
  const KeyAccountKey := "accountKey"
  const KeyEnvironment := "environment"
  const KeyArmEndpoint := "arm_endpoint"
  const KeyMaxParallel := "max_parallel"

  const DefaultEnvironment := "AzurePublicCloud"

  /** `os.Getenv(k)` and `conf[k]`: the empty string for an unset name. */
  function Lookup(m: map<string, string>, k: string): string {
    if k in m then m[k] else ""
  }

  /** The environment value when it is non-empty, the configuration value otherwise. */
  function Layered(env: map<string, string>, envVar: string, conf: map<string, string>, key: string): (r: string)
    ensures r == "" <==> Missing(env, envVar, conf, key)
    ensures Lookup(env, envVar) != "" ==> r == env[envVar]
    ensures Lookup(env, envVar) == "" ==> r == Lookup(conf, key)
  {
    if Lookup(env, envVar) != "" then Lookup(env, envVar) else Lookup(conf, key)
  }

  /** Neither the environment nor the configuration map gives the setting a value. */
  predicate Missing(env: map<string, string>, envVar: string, conf: map<string, string>, key: string) {
    Lookup(env, envVar) == "" && Lookup(conf, key) == ""
  }

  /** A required setting: the layered value, or an error naming the setting when both are empty. */
  function Required(env: map<string, string>, envVar: string, conf: map<string, string>, key: string): (r: Result<string, BackendError>)
    ensures r.Success? <==> !Missing(env, envVar, conf, key)
    ensures r.Success? ==> r.value != "" && (Lookup(env, envVar) != "" ==> r.value == env[envVar])
    ensures r.Success? && Lookup(env, envVar) == "" ==> r.value == conf[key]
    ensures r.Failure? ==> r.error == SettingMissing(key)
  {
    var v := Layered(env, envVar, conf, key);
    if v == "" then Failure(SettingMissing(key)) else Success(v)
  }

  /** The resolved settings the backend is built from. */
  datatype Settings = Settings(
    container: string,
    accountName: string,
    accountKey: string,
    environment: string,
    armEndpoint: string)

  /**
   * Resolves the settings in the order the backend checks them: container, account
   * name, account key (each required), then the environment name (defaulting to the
   * public cloud) and the optional endpoint URL.
   */
  function ResolveSettings(env: map<string, string>, conf: map<string, string>): (r: Result<Settings, BackendError>)
    ensures r.Success? <==>
              !Missing(env, EnvContainer, conf, KeyContainer) &&
              !Missing(env, EnvAccountName, conf, KeyAccountName) &&
              !Missing(env, EnvAccountKey, conf, KeyAccountKey)
    ensures r.Failure? && Missing(env, EnvContainer, conf, KeyContainer) ==>
              r.error == SettingMissing(KeyContainer)
    ensures r.Failure? && !Missing(env, EnvContainer, conf, KeyContainer) && Missing(env, EnvAccountName, conf, KeyAccountName) ==>
              r.error == SettingMissing(KeyAccountName)
    ensures r.Failure? && !Missing(env, EnvContainer, conf, KeyContainer) && !Missing(env, EnvAccountName, conf, KeyAccountName) ==>
              r.error == SettingMissing(KeyAccountKey)
    ensures r.Success? ==>
              r.value.container != "" && r.value.accountName != "" && r.value.accountKey != "" &&
              r.value.environment != ""
    ensures r.Success? && Lookup(env, EnvContainer) != "" ==> r.value.container == env[EnvContainer]
    ensures r.Success? && Lookup(env, EnvAccountName) != "" ==> r.value.accountName == env[EnvAccountName]
    ensures r.Success? && Lookup(env, EnvAccountKey) != "" ==> r.value.accountKey == env[EnvAccountKey]
    ensures r.Success? && Lookup(env, EnvEnvironment) == "" && Lookup(conf, KeyEnvironment) == "" ==>
              r.value.environment == DefaultEnvironment
    ensures r.Success? && Lookup(env, EnvArmEndpoint) == "" ==> r.value.armEndpoint == Lookup(conf, KeyArmEndpoint)
    ensures r.Success? ==>
              r.value.container == Layered(env, EnvContainer, conf, KeyContainer) &&
              r.value.accountName == Layered(env, EnvAccountName, conf, KeyAccountName) &&
              r.value.accountKey == Layered(env, EnvAccountKey, conf, KeyAccountKey) &&
              r.value.armEndpoint == Layered(env, EnvArmEndpoint, conf, KeyArmEndpoint)
    ensures r.Success? ==>
              var given := Layered(env, EnvEnvironment, conf, KeyEnvironment);
              r.value.environment == if given == "" then DefaultEnvironment else given
  {
    match Required(env, EnvContainer, conf, KeyContainer)
    case Failure(e) => Failure(e)
    case Success(container) =>
      match Required(env, EnvAccountName, conf, KeyAccountName)
      case Failure(e) => Failure(e)
      case Success(accountName) =>
        match Required(env, EnvAccountKey, conf, KeyAccountKey)
        case Failure(e) => Failure(e)
        case Success(accountKey) =>
          var environment := Layered(env, EnvEnvironment, conf, KeyEnvironment);
          Success(Settings(
            container, accountName, accountKey,
            if environment == "" then DefaultEnvironment else environment,
            Layered(env, EnvArmEndpoint, conf, KeyArmEndpoint)))
  }

  /**
   * The permit capacity: 0 when `max_parallel` is absent, its integer value when it
   * parses, and an error when it is present and does not (the empty string included).
   */
  function MaxParallel(conf: map<string, string>): (r: Result<int, BackendError>)
    ensures KeyMaxParallel !in conf ==> r == Success(0)
    ensures KeyMaxParallel in conf ==>
              (r.Success? <==> Numbers.Atoi(conf[KeyMaxParallel]).Some?) &&
              (r.Success? ==> r.value == Numbers.Atoi(conf[KeyMaxParallel]).value) &&
              (r.Failure? ==> r.error == MaxParallelInvalid(conf[KeyMaxParallel]))
  {
    if KeyMaxParallel !in conf then Success(0)
    else match Numbers.Atoi(conf[KeyMaxParallel])
      case None => Failure(MaxParallelInvalid(conf[KeyMaxParallel]))
      case Some(n) => Success(n)
  }

  /** A `max_parallel` written as a 64-bit integer gives exactly that capacity. */
  lemma MaxParallelOfNumber(conf: map<string, string>, n: int)
    requires Numbers.MinInt64 <= n <= Numbers.MaxInt64
    requires KeyMaxParallel in conf && conf[KeyMaxParallel] == Numbers.FormatInt(n)
    ensures MaxParallel(conf) == Success(n)
  {
    Numbers.AtoiFormatInt(n);
  }

  /** `max_parallel = "abc"` and an empty `max_parallel` are both refused. */
  lemma MaxParallelRejectsWords(conf: map<string, string>)
    requires KeyMaxParallel in conf && conf[KeyMaxParallel] in {"abc", ""}
    ensures MaxParallel(conf).Failure?
  {
    Numbers.AtoiRejectsWords();
  }
}
