/**
 * Configuration resolution of main.go: the listening port and the log level,
 * each from the value of an environment variable ("" when it is unset).
 * Reading the environment and the warnings logged on a fallback are not
 * part of the model: the value is a parameter.
 */
module Config {

  /** The port used when PORT is unset or empty. */
  const DefaultPort := "8080"

  /** `port`: the value of PORT, or "8080" when it is empty. */
  function Port(env: string): (port: string)
    ensures port != ""
    ensures env != "" ==> port == env
    ensures env == "" ==> port == DefaultPort
  {
    if env == "" then DefaultPort else env
  }

  /** The four levels `logLevel` can produce. */
  datatype Level = Debug | Info | Warn | Error

  /** The LOG_LEVEL value that names each level. */
  function LevelName(level: Level): string {
    match level
    case Debug => "debug"
    case Info => "info"
    case Warn => "warn"
    case Error => "error"
  }

  /**
   * `logLevel`: an empty value means "info"; the four names select their
   * level; anything else falls back to Info.
   */
  function LogLevel(env: string): (level: Level)
    ensures level != Info ==> env == LevelName(level)
    ensures level == Info <==> env != "debug" && env != "warn" && env != "error"
  {
    var name := if env == "" then "info" else env;
    match name
    case "debug" => Debug
    case "info" => Info
    case "warn" => Warn
    case "error" => Error
    case _ => Info
  }

  /** Each level is selected by its own name. */
  lemma LogLevelOfName(level: Level)
    ensures LogLevel(LevelName(level)) == level
  {
  }
}
