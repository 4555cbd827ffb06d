/**
 * `ServerConfigManager` of server_config.py: the configuration dictionary (its names in
 * insertion order and the map) and `current_config` are fields updated in place, and
 * each method is proved to produce the registry the matching function of
 * server_config_rules.dfy gives.
 */
module ServerConfigs {
  import opened Common
  import opened ServerConfigRules

  class ServerConfigManager {
    var names: seq<string>
    var configs: map<string, ServerConfig>
    var current: Option<string>

    function State(): Registry
      reads this
    {
      Registry(names, configs, current)
    }

    ghost predicate Valid()
      reads this
    {
      Ordered(State())
    }

    /**
     * `ServerConfigManager()`: `loaded` is what `_load_configs` read from the file (nothing,
     * when there is no file or it cannot be read); the defaults are then ensured.
     */
    constructor(loaded: Registry)
      requires Ordered(loaded)
      ensures Valid() && State() == EnsureDefaults(loaded)
    {
      names, configs, current := loaded.names, loaded.configs, loaded.current;
      new;
      EnsureDefaultConfigs();
    }

    /** `_ensure_default_configs`: adds each missing default in turn, then sets an unset `current_config`. */
    method EnsureDefaultConfigs()
      requires Valid()
      modifies this
      ensures Valid() && State() == EnsureDefaults(old(State()))
    {
      AddMissingDefaults();
      if !(current.Some? && current.value != "") && configs != map[] {
        current := Some(LocalDevelopment);
      }
    }

    /** The loop of `_ensure_default_configs` over the default configurations. */
    method AddMissingDefaults()
      requires Valid()
      modifies this
      ensures Valid() && State() == AddDefaults(old(State()), |Defaults|)
    {
      ghost var start := State();
      for i := 0 to |Defaults|
        invariant State() == AddDefaults(start, i)
        invariant Valid()
      {
        AddDefaultsKeeps(start, i + 1);
        PutIfMissing(Defaults[i]);
      }
    }

    /** The body of that loop: store `d` under its name unless the name is taken. */
    method PutIfMissing(d: ServerConfig)
      modifies this
      ensures State() == if d.name in old(configs) then old(State()) else Put(old(State()), d.name, d)
    {
      if d.name !in configs {
        names := names + [d.name];
        configs := configs[d.name := d];
      }
    }

    /** `add_config`. */
    method AddConfig(config: ServerConfig) returns (ok: bool)
      requires Valid()
      modifies this
      ensures Valid() && (State(), ok) == ServerConfigRules.AddConfig(old(State()), config)
    {
      AddConfigSpec(State(), config);
      if config.name in configs {
        return false;
      }
      names := names + [config.name];
      configs := configs[config.name := config];
      return true;
    }

    /** `update_config(name, config)`. */
    method UpdateConfig(name: string, config: ServerConfig) returns (ok: bool)
      requires Valid()
      modifies this
      ensures Valid() && (State(), ok) == ServerConfigRules.UpdateConfig(old(State()), name, config)
    {
      UpdateConfigSpec(State(), name, config);
      if name !in configs {
        return false;
      }
      if name != config.name {
        names := Without(names, name);
        configs := configs - {name};
        if current == Some(name) {
          current := Some(config.name);
        }
      }
      if config.name !in configs {
        names := names + [config.name];
      }
      configs := configs[config.name := config];
      return true;
    }

    /** `remove_config`. */
    method RemoveConfig(name: string) returns (ok: bool)
      requires Valid()
      modifies this
      ensures Valid() && (State(), ok) == ServerConfigRules.RemoveConfig(old(State()), name)
    {
      RemoveConfigSpec(State(), name);
      if name !in configs {
        return false;
      }
      names := Without(names, name);
      configs := configs - {name};
      if current == Some(name) {
        current := if names != [] then Some(names[0]) else None;
      }
      return true;
    }

    /** `set_current_config`. */
    method SetCurrentConfig(name: string) returns (ok: bool)
      requires Valid()
      modifies this
      ensures Valid() && (State(), ok) == ServerConfigRules.SetCurrentConfig(old(State()), name)
    {
      if name !in configs {
        return false;
      }
      current := Some(name);
      return true;
    }

    /** `get_current_config`. */
    function GetCurrentConfig(): Option<ServerConfig>
      reads this
    {
      ServerConfigRules.GetCurrentConfig(State())
    }

    /** `get_connection_info`. */
    function GetConnectionInfo(): Option<(string, int)>
      reads this
    {
      ServerConfigRules.GetConnectionInfo(State())
    }
  }
}
