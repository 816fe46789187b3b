/** The application configuration and its loader (`AppConfig`, `AppConfig.LoadConfig`).

    Reading the file and JSON (de)serialisation are library calls: the loader is
    modelled as a function of what happened when the file was looked for, read and
    deserialised, and of what happened when the default file was written. */
module Config {
  import opened Wrappers

  /** The three configuration properties. */
  datatype AppConfig = AppConfig(apiKey: string, prompt: string, timerSeconds: int)

  const DefaultPrompt: string := "Describe what you see in this image"
  const DefaultTimerSeconds: int := 120
  /** The smallest countdown the loader lets through. */
  const MinTimerSeconds: int := 5

  /** `new AppConfig()`: every property holds its declared default. */
  function NewAppConfig(): (c: AppConfig)
    ensures c.apiKey == [] && c.prompt == DefaultPrompt && c.timerSeconds == DefaultTimerSeconds
    ensures c.timerSeconds >= MinTimerSeconds
  {
    AppConfig("", DefaultPrompt, DefaultTimerSeconds)
  }

  /** `char.IsWhiteSpace`: the Unicode space, line and paragraph separators,
      the control characters U+0009 to U+000D, and U+0085. */
  predicate IsWhiteSpace(ch: char) {
    || ch == ' ' || ('\t' <= ch <= '\r') || ch == '\U{85}' || ch == '\U{A0}'
    || ch == '\U{1680}' || ('\U{2000}' <= ch <= '\U{200A}')
    || ch == '\U{2028}' || ch == '\U{2029}' || ch == '\U{202F}' || ch == '\U{205F}'
    || ch == '\U{3000}'
  }

  /** `string.IsNullOrWhiteSpace` on a non-null string. */
  predicate IsNullOrWhiteSpace(s: string) {
    forall i :: 0 <= i < |s| ==> IsWhiteSpace(s[i])
  }

  /** What happened when the loader looked for, read and deserialised `config.json`. */
  datatype ConfigFile =
    | Missing                          // File.Exists was false
    | NullDocument                     // the document deserialised to null
    | Deserialized(parsed: AppConfig)  // the document deserialised to a configuration
    | LoadFailed(message: string)      // reading or deserialising threw

  /** What became of the attempt to write a default `config.json`. */
  datatype DefaultWrite = NotAttempted | Written | WriteFailed(message: string)

  /** The loader's result together with what it reported on the console. */
  datatype LoadReport = LoadReport(
    config: AppConfig,
    emptyKeyWarning: bool,        // "Warning: API Key is empty in config.json"
    defaultWrite: DefaultWrite,   // "Created default config file ..." / "Could not create ..."
    loadError: Option<string>)    // "Error loading config: ..."

  /** The in-place clamp of a deserialised countdown. */
  function ClampTimer(c: AppConfig): (r: AppConfig)
    ensures r.apiKey == c.apiKey && r.prompt == c.prompt
    ensures r.timerSeconds >= MinTimerSeconds
    ensures c.timerSeconds >= MinTimerSeconds ==> r.timerSeconds == c.timerSeconds
    ensures c.timerSeconds < MinTimerSeconds ==> r.timerSeconds == MinTimerSeconds
  {
    if c.timerSeconds < MinTimerSeconds then c.(timerSeconds := MinTimerSeconds) else c
  }

  /** `CreateDefaultConfigFile`: its own failures are caught and only reported;
      `writeError` is the exception the write would raise, if any. */
  function CreateDefaultConfigFile(writeError: Option<string>): (w: DefaultWrite)
    ensures w != NotAttempted
    ensures w == Written <==> writeError == None
  {
    match writeError
    case None => Written
    case Some(m) => WriteFailed(m)
  }

  /** `AppConfig.LoadConfig`. */
  function LoadConfig(file: ConfigFile, writeError: Option<string>): (r: LoadReport)
    // every path yields a countdown of at least five seconds
    ensures r.config.timerSeconds >= MinTimerSeconds
    // a deserialised configuration is returned clamped, key and prompt untouched;
    // a blank key only warns
    ensures file.Deserialized? ==>
              && r.config.apiKey == file.parsed.apiKey
              && r.config.prompt == file.parsed.prompt
              && r.config.timerSeconds == (if file.parsed.timerSeconds < MinTimerSeconds
                                           then MinTimerSeconds else file.parsed.timerSeconds)
              && (r.emptyKeyWarning <==> IsNullOrWhiteSpace(file.parsed.apiKey))
              && r.defaultWrite == NotAttempted && r.loadError == None
    // a missing or null document gives the defaults and an attempt to write them
    ensures (file.Missing? || file.NullDocument?) ==>
              && r.config == NewAppConfig()
              && r.defaultWrite != NotAttempted
              && !r.emptyKeyWarning && r.loadError == None
    // any exception while loading gives a fresh default configuration
    ensures file.LoadFailed? ==>
              && r.config == NewAppConfig()
              && r.loadError == Some(file.message)
              && r.defaultWrite == NotAttempted && !r.emptyKeyWarning
  {
    match file
    case Deserialized(c) =>
      LoadReport(ClampTimer(c), IsNullOrWhiteSpace(c.apiKey), NotAttempted, None)
    case Missing =>
      LoadReport(NewAppConfig(), false, CreateDefaultConfigFile(writeError), None)
    case NullDocument =>
      LoadReport(NewAppConfig(), false, CreateDefaultConfigFile(writeError), None)
    case LoadFailed(m) =>
      LoadReport(NewAppConfig(), false, NotAttempted, Some(m))
  }

  /** Whether writing the default file succeeded never changes the configuration returned. */
  lemma WriteOutcomeIrrelevant(file: ConfigFile, e1: Option<string>, e2: Option<string>)
    ensures LoadConfig(file, e1).config == LoadConfig(file, e2).config
  {
  }

  /** Loading a file that holds what the loader returned gives it back unchanged:
      the clamp is idempotent and a blank key is never rewritten. */
  lemma ReloadIsStable(file: ConfigFile, writeError: Option<string>)
    ensures var c := LoadConfig(file, writeError).config;
            LoadConfig(Deserialized(c), writeError).config == c
  {
  }
}
