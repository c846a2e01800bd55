/** The configuration document as the scripts see it after `yaml.safe_load`,
    the optimizer's checks on it (prompt_optimizer.py:40-86) and the
    sidebar's update of it in the web front end (app.py:180-194). */
module Config {
  import opened Wrappers

  /** A YAML value (sequences and timestamps are not used by the model). */
  datatype Value =
    | Null
    | Bool(b: bool)
    | Int(i: int)
    | Float(f: real)
    | Str(s: string)
    | Dict(entries: map<string, Value>)

  /** A whole configuration file: a mapping from section names to values. */
  type Doc = map<string, Value>

  /** Python truthiness of a value. */
  predicate Truthy(v: Value) {
    match v
    case Null => false
    case Bool(b) => b
    case Int(i) => i != 0
    case Float(f) => f != 0.0
    case Str(s) => |s| > 0
    case Dict(m) => |m| > 0
  }

  /** `v.get(key, default)`: an `AttributeError` unless `v` is a mapping. */
  function Get(v: Value, key: string, default: Value): Result<Value> {
    if !v.Dict? then Failure("AttributeError: object has no attribute 'get'")
    else if key in v.entries then Success(v.entries[key])
    else Success(default)
  }

  /** `config.get(key, {})`. */
  function Section(config: Doc, key: string): Value {
    if key in config then config[key] else Dict(map[])
  }

  // ---------------------------------------------------------------------
  // _validate_config (prompt_optimizer.py:64-71)
  // ---------------------------------------------------------------------

  /** The `validation` section is absent or a mapping, so reading it cannot raise. */
  predicate ValidationReadable(config: Doc) {
    Section(config, "validation").Dict?
  }

  /** Validation is switched on: `validate_config` is absent or truthy. */
  predicate ValidationEnabled(config: Doc)
    requires ValidationReadable(config)
  {
    var v := Section(config, "validation").entries;
    "validate_config" !in v || Truthy(v["validate_config"])
  }

  function ValidateConfig(config: Doc): (r: Result<()>)
    ensures r.Success? <==>
      ValidationReadable(config) &&
      (!ValidationEnabled(config) || ("optimization" in config && "models" in config))
    ensures ValidationReadable(config) && ValidationEnabled(config) && "optimization" !in config ==>
      r == Failure("Missing required config section: optimization")
    ensures ValidationReadable(config) && ValidationEnabled(config) && "optimization" in config && "models" !in config ==>
      r == Failure("Missing required config section: models")
  {
    var flag :- Get(Section(config, "validation"), "validate_config", Bool(true));
    if !Truthy(flag) then Success(())
    else if "optimization" !in config then Failure("Missing required config section: optimization")
    else if "models" !in config then Failure("Missing required config section: models")
    else Success(())
  }

  // ---------------------------------------------------------------------
  // Stage routing: _get_model_config and _call_llm (prompt_optimizer.py:73-86)
  // ---------------------------------------------------------------------

  /** The model a stage falls back to when nothing else is configured. */
  const FallbackModel: string := "claude-3-5-sonnet-20241022"

  /** Where one model call goes: a provider tag and, unless the caller leaves
      it to the gateway's own default, a model name. */
  datatype Route = Route(provider: Value, model: Option<Value>)

  /** The route a stage takes when the `models` section has no entry for it. */
  const DefaultRoute: Route := Route(Str("claude"), Some(Str(FallbackModel)))

  /** `_get_model_config(stage)`: `config['models'].get(stage, default)`. */
  function ModelConfig(config: Doc, stage: string): Result<Value> {
    if "models" !in config then Failure("KeyError: 'models'")
    else Get(config["models"], stage, Dict(map["provider" := Str("claude"), "model" := Str(FallbackModel)]))
  }

  /** The provider and model `_call_llm` passes to the gateway for `stage`. */
  function StageRoute(config: Doc, stage: string): (r: Result<Route>)
    ensures r.Success? <==> Routable(config, stage)
    ensures "models" !in config ==> r == Failure("KeyError: 'models'")
  {
    var mc :- ModelConfig(config, stage);
    var provider :- Get(mc, "provider", Str("claude"));
    var model :- Get(mc, "model", Str(FallbackModel));
    Success(Route(provider, Some(model)))
  }

  /** The `models` section can route `stage` without raising. */
  predicate Routable(config: Doc, stage: string) {
    && "models" in config
    && config["models"].Dict?
    && (stage in config["models"].entries ==> config["models"].entries[stage].Dict?)
  }

  /** Stage lookup: an unconfigured stage takes the default route, a
      configured one takes its own provider and model with each missing field
      defaulted, and the lookup raises exactly when the section or the
      stage's entry is not a mapping. */
  lemma StageRouteSpec(config: Doc, stage: string)
    ensures StageRoute(config, stage).Success? <==> Routable(config, stage)
    ensures Routable(config, stage) && stage !in config["models"].entries ==>
      StageRoute(config, stage) == Success(DefaultRoute)
    ensures Routable(config, stage) && stage in config["models"].entries ==>
      var m := config["models"].entries[stage].entries;
      StageRoute(config, stage) == Success(Route(
        if "provider" in m then m["provider"] else Str("claude"),
        Some(if "model" in m then m["model"] else Str(FallbackModel))))
  {
  }

  /** A stage's route depends on its own entry alone: configuring other
      stages never changes it. */
  lemma StageRouteIsLocal(c1: Doc, c2: Doc, stage: string)
    requires "models" in c1 && "models" in c2
    requires c1["models"].Dict? && c2["models"].Dict?
    requires stage in c1["models"].entries <==> stage in c2["models"].entries
    requires stage in c1["models"].entries ==>
      c1["models"].entries[stage] == c2["models"].entries[stage]
    ensures StageRoute(c1, stage) == StageRoute(c2, stage)
  {
  }

  /** `_get_default_config` (prompt_optimizer.py:40-57). */
  function DefaultConfig(): Doc {
    map[
      "optimization" := Dict(map[
        "max_iterations" := Int(15),
        "target_success_rate" := Int(100),
        "feedback_frequency" := Int(3)]),
      "models" := Dict(map[
        "initial_prompt_generator" := Dict(map["provider" := Str("claude"), "model" := Str("claude-sonnet-4-5-20250929")]),
        "answer_generator" := Dict(map["provider" := Str("claude"), "model" := Str("claude-3-5-sonnet-20241022")]),
        "prompt_optimizer" := Dict(map["provider" := Str("claude"), "model" := Str("claude-sonnet-4-5-20250929")]),
        "feedback_collector" := Dict(map["provider" := Str("claude"), "model" := Str("claude-3-5-sonnet-20241022")]),
        "prompt_evolver" := Dict(map["provider" := Str("claude"), "model" := Str("claude-sonnet-4-5-20250929")])]),
      "matching" := Dict(map["case_sensitive" := Bool(false), "strip_whitespace" := Bool(true)]),
      "output" := Dict(map["verbose_logging" := Bool(true)])
    ]
  }

  /** The built-in configuration passes validation and routes the stages the
      engine looks up through the `models` section to Claude. */
  lemma DefaultConfigIsUsable()
    ensures ValidateConfig(DefaultConfig()).Success?
    ensures StageRoute(DefaultConfig(), "initial_prompt_generator") ==
      Success(Route(Str("claude"), Some(Str("claude-sonnet-4-5-20250929"))))
    ensures StageRoute(DefaultConfig(), "answer_generator") ==
      Success(Route(Str("claude"), Some(Str("claude-3-5-sonnet-20241022"))))
    ensures StageRoute(DefaultConfig(), "prompt_optimizer") ==
      Success(Route(Str("claude"), Some(Str("claude-sonnet-4-5-20250929"))))
  {
    var c := DefaultConfig();
    assert "models" in c;
    var m := c["models"].entries;
    assert m["initial_prompt_generator"].entries["provider"] == Str("claude");
  }

  // ---------------------------------------------------------------------
  // The sidebar's "Save Configuration" update (app.py:180-194)
  // ---------------------------------------------------------------------

  /** The values the sidebar widgets hold when the button is pressed. */
  datatype SidebarSettings = SidebarSettings(
    projectName: string,
    projectVersion: string,
    maxIterations: int,
    targetSuccessRate: int,
    feedbackFrequency: int,
    enableParallel: bool,
    maxWorkers: int)

  /** `if section not in config: config[section] = {}` followed by item
      assignments into it; assigning into a non-mapping raises `TypeError`. */
  function SetKeys(config: Doc, section: string, updates: map<string, Value>): Result<Doc> {
    var sec := Section(config, section);
    if !sec.Dict? then Failure("TypeError: object does not support item assignment")
    else Success(config[section := Dict(sec.entries + updates)])
  }

  function ProjectUpdates(s: SidebarSettings): map<string, Value> {
    map["name" := Str(s.projectName), "version" := Str(s.projectVersion)]
  }

  function OptimizationUpdates(s: SidebarSettings): map<string, Value> {
    map["max_iterations" := Int(s.maxIterations),
        "target_success_rate" := Int(s.targetSuccessRate),
        "feedback_frequency" := Int(s.feedbackFrequency)]
  }

  function PerformanceUpdates(s: SidebarSettings): map<string, Value> {
    map["enable_parallel" := Bool(s.enableParallel), "max_workers" := Int(s.maxWorkers)]
  }

  /** Writing keys into three sections, one after the other; the first
      failure stops the update. */
  function SetSections(config: Doc, a: string, ua: map<string, Value>, b: string, ub: map<string, Value>,
                       c: string, uc: map<string, Value>): Result<Doc> {
    var c1 :- SetKeys(config, a, ua);
    var c2 :- SetKeys(c1, b, ub);
    SetKeys(c2, c, uc)
  }

  /** The in-memory update the "Save Configuration" button performs before
      writing the file. */
  function SaveSidebar(config: Doc, s: SidebarSettings): (r: Result<Doc>)
    ensures r.Success? <==>
      Section(config, "project").Dict? && Section(config, "optimization").Dict? && Section(config, "performance").Dict?
  {
    SetSectionsSucceeds(config, "project", ProjectUpdates(s), "optimization", OptimizationUpdates(s),
                        "performance", PerformanceUpdates(s));
    SetSections(config, "project", ProjectUpdates(s), "optimization", OptimizationUpdates(s),
                "performance", PerformanceUpdates(s))
  }

  /** Writing keys into one section: it succeeds exactly when the section is
      absent or a mapping, and then only that section changes, to its old
      entries overridden by the new ones. */
  lemma SetKeysSpec(config: Doc, section: string, updates: map<string, Value>)
    ensures SetKeys(config, section, updates).Success? <==> Section(config, section).Dict?
    ensures SetKeys(config, section, updates).Success? ==>
      var r := SetKeys(config, section, updates).value;
      && r.Keys == config.Keys + {section}
      && r[section] == Dict(Section(config, section).entries + updates)
      && (forall k | k in config && k != section :: r[k] == config[k])
  {
  }

  /** Writing three distinct sections succeeds exactly when each is absent
      or a mapping. */
  lemma SetSectionsSucceeds(config: Doc, a: string, ua: map<string, Value>, b: string, ub: map<string, Value>,
                            c: string, uc: map<string, Value>)
    requires a != b && b != c && a != c
    ensures SetSections(config, a, ua, b, ub, c, uc).Success? <==>
      Section(config, a).Dict? && Section(config, b).Dict? && Section(config, c).Dict?
  {
    SetKeysSpec(config, a, ua);
    if SetKeys(config, a, ua).Success? {
      var c1 := SetKeys(config, a, ua).value;
      assert Section(c1, b) == Section(config, b);
      assert Section(c1, c) == Section(config, c);
      SetKeysSpec(c1, b, ub);
      if SetKeys(c1, b, ub).Success? {
        assert Section(SetKeys(c1, b, ub).value, c) == Section(config, c);
      }
    }
  }

  /** After a successful write of three distinct sections, each becomes its
      old entries overridden by its updates, and every other section is left
      as it was. */
  lemma SetSectionsSpec(config: Doc, a: string, ua: map<string, Value>, b: string, ub: map<string, Value>,
                        c: string, uc: map<string, Value>)
    requires a != b && b != c && a != c
    requires SetSections(config, a, ua, b, ub, c, uc).Success?
    ensures
      var r := SetSections(config, a, ua, b, ub, c, uc).value;
      && r.Keys == config.Keys + {a, b, c}
      && (forall k | k in config && k != a && k != b && k != c :: r[k] == config[k])
      && r[a] == Dict(Section(config, a).entries + ua)
      && r[b] == Dict(Section(config, b).entries + ub)
      && r[c] == Dict(Section(config, c).entries + uc)
  {
    var c1 := SetKeys(config, a, ua).value;
    var c2 := SetKeys(c1, b, ub).value;
    SetKeysSpec(config, a, ua);
    SetKeysSpec(c1, b, ub);
    SetKeysSpec(c2, c, uc);
    assert Section(c1, b) == Section(config, b);
    assert Section(c2, c) == Section(config, c);
  }

  /** The update succeeds exactly when every written section is absent or a
      mapping; it then creates the missing sections, sets exactly the listed
      keys (each written section becomes its old entries overridden by the
      listed ones), and leaves every other section as it was. */
  lemma SaveSidebarSpec(config: Doc, s: SidebarSettings)
    ensures SaveSidebar(config, s).Success? <==>
      Section(config, "project").Dict? && Section(config, "optimization").Dict? && Section(config, "performance").Dict?
    ensures SaveSidebar(config, s).Success? ==>
      var r := SaveSidebar(config, s).value;
      && r.Keys == config.Keys + {"project", "optimization", "performance"}
      && (forall k | k in config && k != "project" && k != "optimization" && k != "performance" :: r[k] == config[k])
      && r["project"] == Dict(Section(config, "project").entries + ProjectUpdates(s))
      && r["optimization"] == Dict(Section(config, "optimization").entries + OptimizationUpdates(s))
      && r["performance"] == Dict(Section(config, "performance").entries + PerformanceUpdates(s))
  {
    SetSectionsSucceeds(config, "project", ProjectUpdates(s), "optimization", OptimizationUpdates(s),
                        "performance", PerformanceUpdates(s));
    if SaveSidebar(config, s).Success? {
      SetSectionsSpec(config, "project", ProjectUpdates(s), "optimization", OptimizationUpdates(s),
                      "performance", PerformanceUpdates(s));
    }
  }
}
