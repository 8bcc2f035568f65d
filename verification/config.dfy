/** The watcher's configuration document: the built-in defaults and the
    merge of a loaded JSON object over them (fixpipeline.py, DEFAULT_CONFIG
    and `load_config`). */
module Config {
  import opened Wrappers

  /** A JSON value as far as the configuration needs it. Values of other
      shapes (floats, nested objects, lists holding non-strings) are kept
      only by their Python truth value. */
  datatype ConfigValue =
    | Str(s: string)
    | Flag(b: bool)
    | Names(items: seq<string>)
    | Number(n: int)
    | Null
    | Other(truthy: bool)

  type Document = map<string, ConfigValue>

  /** Python truthiness, as `if self.config.get('notifications', True)` uses it. */
  function Truthy(v: ConfigValue): bool
  {
    match v
    case Str(s) => s != []
    case Flag(b) => b
    case Names(items) => items != []
    case Number(n) => n != 0
    case Null => false
    case Other(t) => t
  }

  const DefaultTargets: seq<string> := [
    "app-production-release.apk",
    "app-staging-release.apk",
    "app-production-debug.apk",
    "app-staging-debug.apk"
  ]

  /** DEFAULT_CONFIG; `downloads` is `str(Path.home() / 'Downloads')`,
      which depends on the environment. */
  function DefaultConfig(downloads: string): (c: Document)
    ensures c.Keys == {"watch_dir", "notifications", "target_files"}
    ensures c["watch_dir"] == Str(downloads)
    ensures c["notifications"] == Flag(true)
    ensures c["target_files"] == Names(DefaultTargets)
  {
    map["watch_dir" := Str(downloads),
        "notifications" := Flag(true),
        "target_files" := Names(DefaultTargets)]
  }

  /** `{**defaults, **loaded}`: the loaded document wins on every key it has. */
  function Merge(defaults: Document, loaded: Document): (r: Document)
    ensures r.Keys == defaults.Keys + loaded.Keys
    ensures forall k :: k in loaded ==> r[k] == loaded[k]
    ensures forall k :: k in defaults && k !in loaded ==> r[k] == defaults[k]
  {
    defaults + loaded
  }

  /** The configuration `load_config` returns. `loaded` is None when the
      file is absent or cannot be read as a JSON object; the defaults are
      used unchanged then. */
  function LoadConfig(downloads: string, loaded: Option<Document>): (r: Document)
    ensures "watch_dir" in r && "notifications" in r && "target_files" in r
    ensures loaded.None? ==> r == DefaultConfig(downloads)
    ensures loaded.Some? ==> r.Keys == DefaultConfig(downloads).Keys + loaded.value.Keys
    ensures loaded.Some? ==> forall k :: k in loaded.value ==> k in r && r[k] == loaded.value[k]
    ensures loaded.Some? ==> forall k :: k in r && k !in loaded.value ==>
              k in DefaultConfig(downloads) && r[k] == DefaultConfig(downloads)[k]
  {
    match loaded
    case None => DefaultConfig(downloads)
    case Some(doc) => Merge(DefaultConfig(downloads), doc)
  }

  /** `self.config.get('notifications', True)`. */
  function NotificationsOn(config: Document): bool
  {
    if "notifications" in config then Truthy(config["notifications"]) else true
  }

  /** `config['target_files']` is present and a list of strings, as
      `is_target_apk` needs it. */
  predicate HasTargetList(config: Document)
  {
    "target_files" in config && config["target_files"].Names?
  }
}
