/**
 * The settings module: a fixed record of defaults, overlaid with the own
 * properties of a per-environment module `./config.<env>` when that module
 * loads, and left exactly as the defaults when it does not.
 */
module Config {
  import opened Results
  import opened Js

  const DEFAULT_ENVIRONMENT := "development"
  const DEFAULT_WEB_PORT := 37760
  const DEFAULT_CODE_THRESHOLD := 10

  type Settings = map<string, Value>

  /** `process.env.NODE_ENV || 'development'`: an unset or empty variable means development. */
  function Environment(nodeEnv: Option<string>): (env: string)
    ensures env != ""
    ensures nodeEnv.Some? && nodeEnv.value != "" ==> env == nodeEnv.value
    ensures nodeEnv.None? || nodeEnv.value == "" ==> env == DEFAULT_ENVIRONMENT
  {
    if nodeEnv.Some? && nodeEnv.value != "" then nodeEnv.value else DEFAULT_ENVIRONMENT
  }

  const DEFAULT_KEYS := {"web_port", "solr_hostname", "solr_port", "solr_max_boolean_terms", "solr_corename",
                         "run_as_user", "log_path", "log_level", "code_threshold", "codever", "environment"}

  /** The settings record before any override; `dirname` is the module's directory. */
  function Defaults(env: string, dirname: string): (s: Settings)
    ensures s.Keys == DEFAULT_KEYS
    ensures s["environment"] == Str(env)
    ensures s["log_path"] == Str(dirname + "/logs/echoprint.log")
  {
    map[
      "web_port" := Number(DEFAULT_WEB_PORT),
      "solr_hostname" := Str("localhost"),
      "solr_port" := Number(8983),
      "solr_max_boolean_terms" := Number(1024),
      "solr_corename" := Str("echoprint"),
      "run_as_user" := Str(""),
      "log_path" := Str(dirname + "/logs/echoprint.log"),
      "log_level" := Str("debug"),
      "code_threshold" := Number(DEFAULT_CODE_THRESHOLD),
      "codever" := Str("4.12"),
      "environment" := Str(env)]
  }

  /**
   * The object a per-environment module exports, split into its own
   * properties and the enumerable properties it inherits; `for ... in` visits
   * both, `hasOwnProperty` keeps the first kind.
   */
  datatype LocalModule = LocalModule(own: map<string, Value>, inherited: map<string, Value>)

  /** Overlay: every own property of `local` replaces or extends `settings`. */
  function Override(settings: Settings, own: map<string, Value>): (r: Settings)
    ensures r.Keys == settings.Keys + own.Keys
    ensures forall k :: k in own ==> r[k] == own[k]
    ensures forall k :: k in settings && k !in own ==> r[k] == settings[k]
  {
    settings + own
  }

  function Restrict(m: map<string, Value>, keys: set<string>): (r: map<string, Value>)
    ensures r.Keys == m.Keys * keys
    ensures forall k :: k in r ==> r[k] == m[k]
  {
    map k | k in m && k in keys :: m[k]
  }

  /** Visiting one more property copies it exactly when it is an own property. */
  lemma OverrideVisit(settings: Settings, own: map<string, Value>, visited: set<string>, p: string)
    ensures var before := Override(settings, Restrict(own, visited));
            Override(settings, Restrict(own, visited + {p})) == if p in own then before[p := own[p]] else before
  {
  }

  /**
   * The override loop as written: visit every enumerable property of the
   * local module in some order and copy it when it is an own property.
   */
  method ApplyOverrides(settings: Settings, local: LocalModule) returns (r: Settings)
    ensures r.Keys == settings.Keys + local.own.Keys
    ensures forall k :: k in local.own ==> r[k] == local.own[k]
    ensures forall k :: k in settings && k !in local.own ==> r[k] == settings[k]
  {
    r := settings;
    var pending := local.own.Keys + local.inherited.Keys;
    ghost var visited: set<string> := {};
    while pending != {}
      invariant pending + visited == local.own.Keys + local.inherited.Keys
      invariant pending !! visited
      invariant r == Override(settings, Restrict(local.own, visited))
      decreases pending
    {
      var property :| property in pending;
      OverrideVisit(settings, local.own, visited, property);
      if property in local.own {
        r := r[property := local.own[property]];
      }
      pending := pending - {property};
      visited := visited + {property};
    }
    assert Restrict(local.own, visited) == local.own;
  }

  /**
   * The exported settings. `load` stands for `require`: given the module
   * path it returns the module or fails (missing file, error while loading).
   */
  function LoadSettings(nodeEnv: Option<string>, dirname: string,
                        load: string -> Result<LocalModule, string>): (s: Settings)
    ensures load("./config." + Environment(nodeEnv)).Failure? ==> s == Defaults(Environment(nodeEnv), dirname)
    ensures load("./config." + Environment(nodeEnv)).Success? ==>
              var local := load("./config." + Environment(nodeEnv)).value;
              && s.Keys == DEFAULT_KEYS + local.own.Keys
              && (forall k :: k in local.own ==> s[k] == local.own[k])
              && (forall k :: k in DEFAULT_KEYS && k !in local.own ==> s[k] == Defaults(Environment(nodeEnv), dirname)[k])
  {
    var env := Environment(nodeEnv);
    var defaults := Defaults(env, dirname);
    match load("./config." + env)
    case Success(local) => Override(defaults, local.own)
    case Failure(_) => defaults
  }

  /** Without a loadable override the documented defaults are in force. */
  lemma DefaultsWithoutOverride(nodeEnv: Option<string>, dirname: string, load: string -> Result<LocalModule, string>)
    requires load("./config." + Environment(nodeEnv)).Failure?
    ensures var s := LoadSettings(nodeEnv, dirname, load);
            && s["web_port"] == Number(37760)
            && s["code_threshold"] == Number(10)
            && s["environment"] == Str(Environment(nodeEnv))
  {
  }

  /** Inherited properties of the local module never reach the settings. */
  lemma InheritedPropertiesIgnored(settings: Settings, local: LocalModule, k: string)
    requires k in local.inherited && k !in local.own
    ensures k in Override(settings, local.own) <==> k in settings
    ensures k in settings ==> Override(settings, local.own)[k] == settings[k]
  {
  }

  /** Applying the same override twice gives what applying it once gives. */
  lemma OverrideIdempotent(settings: Settings, own: map<string, Value>)
    ensures Override(Override(settings, own), own) == Override(settings, own)
  {
  }
}
