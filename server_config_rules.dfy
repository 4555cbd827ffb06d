/**
 * The registry of server_config.py as values: a `ServerConfig` record, its dictionary form,
 * and the name-to-config dictionary with its `current_config` name. Python dictionaries
 * keep insertion order, and `remove_config` depends on it, so the registry keeps the names
 * in order beside the map. The class in server_config.dfy follows these functions.
 */
module ServerConfigRules {
  import opened Common
  import opened JsonValues

  datatype ServerType = Localhost | AwsLambda | AzureFunctions | Custom

  /** The enum values of `ServerType`. */
  function ServerTypeValue(t: ServerType): string {
    match t
    case Localhost => "localhost"
    case AwsLambda => "aws_lambda"
    case AzureFunctions => "azure_functions"
    case Custom => "custom"
  }

  /** `ServerType(value)`: `None` where the lookup raises. */
  function ServerTypeOf(j: Json): (t: Option<ServerType>)
    ensures t.Some? ==> j == JStr(ServerTypeValue(t.value))
    ensures forall u :: j == JStr(ServerTypeValue(u)) ==> t == Some(u)
  {
    if j == JStr("localhost") then Some(Localhost)
    else if j == JStr("aws_lambda") then Some(AwsLambda)
    else if j == JStr("azure_functions") then Some(AzureFunctions)
    else if j == JStr("custom") then Some(Custom)
    else None
  }

  datatype ServerConfig = ServerConfig(
    name: string,
    serverType: ServerType,
    host: string,
    port: int,
    useSsl: bool,
    apiKey: Option<string>,
    region: Option<string>,
    functionName: Option<string>,
    description: string)

  function OptionalString(s: Option<string>): Json {
    if s.Some? then JStr(s.value) else JNull
  }

  /** `to_dict`: every field under its own name, the server type as its value. */
  function ToDict(c: ServerConfig): map<string, Json> {
    map[
      "name" := JStr(c.name),
      "server_type" := JStr(ServerTypeValue(c.serverType)),
      "host" := JStr(c.host),
      "port" := JInt(c.port),
      "use_ssl" := JBool(c.useSsl),
      "api_key" := OptionalString(c.apiKey),
      "region" := OptionalString(c.region),
      "function_name" := OptionalString(c.functionName),
      "description" := JStr(c.description)]
  }

  const FieldNames: set<string> :=
    {"name", "server_type", "host", "port", "use_ssl", "api_key", "region", "function_name", "description"}

  /** A string-valued field. */
  predicate IsStr(d: map<string, Json>, k: string) {
    k in d && d[k].JStr?
  }

  /** An optional field that is absent, `null` or a string. */
  predicate OptStrOk(d: map<string, Json>, k: string) {
    k !in d || d[k] == JNull || d[k].JStr?
  }

  function OptStr(d: map<string, Json>, k: string): Option<string>
    requires OptStrOk(d, k)
  {
    if k in d && d[k].JStr? then Some(d[k].s) else None
  }

  /**
   * `from_dict`: the server type must be one of the enum values, `name`, `host` and `port`
   * must be present and no unknown key may appear, or the call raises (`None`); absent
   * optional fields take their defaults.
   */
  function FromDict(d: map<string, Json>): Option<ServerConfig> {
    if "server_type" !in d || ServerTypeOf(d["server_type"]).None? then None
    else if !(d.Keys <= FieldNames) then None
    else if !(IsStr(d, "name") && IsStr(d, "host") && "port" in d && d["port"].JInt?) then None
    else if "use_ssl" in d && !d["use_ssl"].JBool? then None
    else if "description" in d && !d["description"].JStr? then None
    else if !(OptStrOk(d, "api_key") && OptStrOk(d, "region") && OptStrOk(d, "function_name")) then None
    else
      Some(ServerConfig(
        d["name"].s, ServerTypeOf(d["server_type"]).value, d["host"].s, d["port"].i,
        if "use_ssl" in d then d["use_ssl"].b else false,
        OptStr(d, "api_key"), OptStr(d, "region"), OptStr(d, "function_name"),
        if "description" in d then d["description"].s else ""))
  }

  /** `from_dict(c.to_dict())` is `c`. */
  lemma FromDictToDict(c: ServerConfig)
    ensures FromDict(ToDict(c)) == Some(c)
  {
    var d := ToDict(c);
    assert d.Keys == FieldNames;
  }

  /** `from_dict` refuses a dictionary whose server type is not one of the enum values. */
  lemma FromDictUnknownType(d: map<string, Json>)
    requires "server_type" in d && forall t :: d["server_type"] != JStr(ServerTypeValue(t))
    ensures FromDict(d) == None
  {
  }

  // ---------------------------------------------------------------------------------
  // The registry

  /** `configs` (its names in insertion order, and the map) and `current_config`. */
  datatype Registry = Registry(names: seq<string>, configs: map<string, ServerConfig>, current: Option<string>)

  /** The order lists each key once. */
  ghost predicate Ordered(r: Registry) {
    Distinct(r.names) && forall k :: k in r.names <==> k in r.configs
  }

  /** `self.current_config` used as a condition: `None` and `""` are false. */
  predicate CurrentSet(r: Registry) {
    r.current.Some? && r.current.value != ""
  }

  /** The names without `k`, in order. */
  function Without(names: seq<string>, k: string): (s: seq<string>)
    ensures forall x :: x in s <==> x in names && x != k
    ensures Distinct(names) ==> Distinct(s)
  {
    if names == [] then []
    else if names[0] == k then Without(names[1..], k)
    else
      assert names[0] !in names[1..] ==> names[0] !in Without(names[1..], k);
      [names[0]] + Without(names[1..], k)
  }

  /** `configs[k] = v`: a new key goes to the end, an existing one keeps its place. */
  function Put(r: Registry, k: string, v: ServerConfig): Registry {
    r.(names := if k in r.configs then r.names else r.names + [k], configs := r.configs[k := v])
  }

  /** `del configs[k]`. */
  function Delete(r: Registry, k: string): Registry {
    r.(names := Without(r.names, k), configs := r.configs - {k})
  }

  lemma PutDeleteOrdered(r: Registry, k: string, v: ServerConfig)
    requires Ordered(r)
    ensures Ordered(Put(r, k, v)) && Ordered(Delete(r, k))
  {
  }

  /** `add_config`. */
  function AddConfig(r: Registry, c: ServerConfig): (res: (Registry, bool)) {
    if c.name in r.configs then (r, false) else (Put(r, c.name, c), true)
  }

  /**
   * Adding fails, changing nothing, exactly when the name is taken; otherwise the config is
   * stored under its name, listed last, and the current config is untouched.
   */
  lemma AddConfigSpec(r: Registry, c: ServerConfig)
    requires Ordered(r)
    ensures var (r', ok) := AddConfig(r, c);
      Ordered(r') && (ok <==> c.name !in r.configs) && (!ok ==> r' == r) &&
      (ok ==> r'.configs == r.configs[c.name := c] && r'.names == r.names + [c.name] && r'.current == r.current)
  {
    PutDeleteOrdered(r, c.name, c);
  }

  /** `update_config(name, config)`. */
  function UpdateConfig(r: Registry, name: string, c: ServerConfig): (res: (Registry, bool)) {
    if name !in r.configs then (r, false)
    else
      var r1 := if name != c.name
        then Delete(r, name).(current := if r.current == Some(name) then Some(c.name) else r.current)
        else r;
      (Put(r1, c.name, c), true)
  }

  /**
   * Updating fails, changing nothing, for an unknown name. Otherwise the old entry is gone and
   * the config is stored under its own name (replacing any config already there), and a
   * `current_config` naming the old name follows the rename. A renamed config drops out of
   * its old place and goes last, unless its new name was already listed, where it then sits.
   */
  lemma UpdateConfigSpec(r: Registry, name: string, c: ServerConfig)
    requires Ordered(r)
    ensures var (r', ok) := UpdateConfig(r, name, c);
      Ordered(r') && (ok <==> name in r.configs) && (!ok ==> r' == r) &&
      (ok ==>
        r'.configs == (r.configs - {name})[c.name := c] &&
        r'.current == (if r.current == Some(name) then Some(c.name) else r.current) &&
        (name == c.name ==> r'.names == r.names) &&
        (name != c.name ==> r'.names == Without(r.names, name) + (if c.name in r.configs then [] else [c.name])))
  {
    if name in r.configs && name != c.name {
      var r1 := Delete(r, name).(current := if r.current == Some(name) then Some(c.name) else r.current);
      PutDeleteOrdered(r, name, c);
      PutDeleteOrdered(r1, c.name, c);
      assert r1.names == Without(r.names, name) && r1.configs == r.configs - {name};
      assert c.name in r1.configs <==> c.name in r.configs;
    }
  }

  /** `remove_config`. */
  function RemoveConfig(r: Registry, name: string): (res: (Registry, bool)) {
    if name !in r.configs then (r, false)
    else
      var r1 := Delete(r, name);
      if r.current == Some(name) then
        (r1.(current := if r1.names != [] then Some(r1.names[0]) else None), true)
      else (r1, true)
  }

  /**
   * Removing fails, changing nothing, for an unknown name. Otherwise the entry is gone, the
   * others keep their order, and a `current_config` naming it moves to the first remaining name,
   * or to nothing when none remains.
   */
  lemma RemoveConfigSpec(r: Registry, name: string)
    requires Ordered(r)
    ensures var (r', ok) := RemoveConfig(r, name);
      Ordered(r') && (ok <==> name in r.configs) && (!ok ==> r' == r) &&
      (ok ==>
        r'.configs == r.configs - {name} && r'.names == Without(r.names, name) &&
        (r.current != Some(name) ==> r'.current == r.current) &&
        (r.current == Some(name) && r'.configs != map[] ==>
          r'.current.Some? && r'.current.value in r'.configs && r'.current == Some(r'.names[0])) &&
        (r.current == Some(name) && r'.configs == map[] ==> r'.current == None))
  {
    if name !in r.configs {
      return;
    }
    PutDeleteOrdered(r, name, r.configs[name]);
    var r1 := Delete(r, name);
    if r1.configs != map[] {
      var k :| k in r1.configs;
      assert k in r1.names;
    }
  }

  /** `set_current_config`. */
  function SetCurrentConfig(r: Registry, name: string): (res: (Registry, bool)) {
    if name !in r.configs then (r, false) else (r.(current := Some(name)), true)
  }

  /** Setting the current config succeeds exactly for a known name and changes only `current_config`. */
  lemma SetCurrentConfigSpec(r: Registry, name: string)
    requires Ordered(r)
    ensures var (r', ok) := SetCurrentConfig(r, name);
      Ordered(r') && (ok <==> name in r.configs) &&
      r'.names == r.names && r'.configs == r.configs &&
      r'.current == (if ok then Some(name) else r.current)
  {
  }

  /** `get_current_config`. */
  function GetCurrentConfig(r: Registry): (c: Option<ServerConfig>)
    ensures c.Some? <==> CurrentSet(r) && r.current.value in r.configs
    ensures c.Some? ==> c.value == r.configs[r.current.value]
  {
    if CurrentSet(r) && r.current.value in r.configs then Some(r.configs[r.current.value]) else None
  }

  /** `get_connection_info`: the current config's host and port. */
  function GetConnectionInfo(r: Registry): (info: Option<(string, int)>) {
    match GetCurrentConfig(r)
    case Some(c) => Some((c.host, c.port))
    case None => None
  }

  /** There is connection info exactly when `current_config` names a stored config, and it is that config's. */
  lemma GetConnectionInfoSpec(r: Registry)
    ensures GetConnectionInfo(r).Some? <==> CurrentSet(r) && r.current.value in r.configs
    ensures GetConnectionInfo(r).Some? ==>
      GetConnectionInfo(r).value == (r.configs[r.current.value].host, r.configs[r.current.value].port)
  {
  }

  /**
   * The name `""` can be stored and made current, yet `current_config` then counts as unset, so
   * there is no current config.
   */
  lemma EmptyNameNeverCurrent(r: Registry, c: ServerConfig)
    requires c.name == "" && c.name in r.configs
    ensures SetCurrentConfig(r, "").1 && GetCurrentConfig(SetCurrentConfig(r, "").0) == None
  {
  }

  const LocalDevelopment := "Local Development"

  /** The four configurations `_ensure_default_configs` adds when missing. */
  const Defaults: seq<ServerConfig> := [
    ServerConfig(LocalDevelopment, Localhost, "localhost", 12345, false, None, None, None,
      "Local development server"),
    ServerConfig("Local Network", Localhost, "0.0.0.0", 12345, false, None, None, None,
      "Local network server (accessible from other devices)"),
    ServerConfig("AWS Lambda (Example)", AwsLambda, "your-api-gateway-url.amazonaws.com", 443, true, None,
      Some("us-east-1"), Some("gomoku-server"), "AWS Lambda serverless deployment"),
    ServerConfig("Azure Functions (Example)", AzureFunctions, "your-function-app.azurewebsites.net", 443, true,
      None, None, Some("gomoku-server"), "Azure Functions serverless deployment")]

  /** The first `k` defaults, each added if its name is missing. */
  function AddDefaults(r: Registry, k: nat): Registry
    requires k <= |Defaults|
  {
    if k == 0 then r
    else
      var r1 := AddDefaults(r, k - 1);
      if Defaults[k - 1].name in r1.configs then r1 else Put(r1, Defaults[k - 1].name, Defaults[k - 1])
  }

  /** `_ensure_default_configs`, without the save. */
  function EnsureDefaults(r: Registry): Registry {
    var r1 := AddDefaults(r, |Defaults|);
    if !CurrentSet(r1) && r1.configs != map[] then r1.(current := Some(LocalDevelopment)) else r1
  }

  /** Position of `n` among the default names, or `|Defaults|` when it is none of them. */
  function DefaultIndex(n: string): (i: nat)
    ensures i <= |Defaults| && (i < |Defaults| ==> Defaults[i].name == n)
    ensures i == |Defaults| ==> forall j :: 0 <= j < |Defaults| ==> Defaults[j].name != n
  {
    if n == Defaults[0].name then 0
    else if n == Defaults[1].name then 1
    else if n == Defaults[2].name then 2
    else if n == Defaults[3].name then 3
    else 4
  }

  /** Adding defaults keeps every stored entry, the order of the old names and `current_config`. */
  lemma {:induction false} AddDefaultsKeeps(r: Registry, k: nat)
    requires Ordered(r) && k <= |Defaults|
    ensures var r' := AddDefaults(r, k);
      Ordered(r') && r'.current == r.current && r.names <= r'.names &&
      forall n :: n in r.configs ==> n in r'.configs && r'.configs[n] == r.configs[n]
  {
    if k > 0 {
      AddDefaultsKeeps(r, k - 1);
      PutDeleteOrdered(AddDefaults(r, k - 1), Defaults[k - 1].name, Defaults[k - 1]);
    }
  }

  /** Each default name sits at its own index. */
  lemma DefaultIndexOf(i: nat)
    requires i < |Defaults|
    ensures DefaultIndex(Defaults[i].name) == i
  {
  }

  /** The names of the first `k` defaults are in `r'`, and every entry `r'` adds to `r` is one of them. */
  ghost predicate AddsFirstDefaults(r: Registry, r': Registry, k: nat)
    requires k <= |Defaults|
  {
    (forall i :: 0 <= i < k ==> Defaults[i].name in r'.configs) &&
    forall n :: n in r'.configs && n !in r.configs ==>
      DefaultIndex(n) < k && r'.configs[n] == Defaults[DefaultIndex(n)]
  }

  /** After the first `k` defaults their names are present, and every new entry is one of them. */
  lemma {:induction false} AddDefaultsAdds(r: Registry, k: nat)
    requires k <= |Defaults|
    ensures AddsFirstDefaults(r, AddDefaults(r, k), k)
  {
    if k > 0 {
      AddDefaultsAdds(r, k - 1);
      AddDefaultsAddsStep(r, k);
    }
  }

  lemma AddDefaultsAddsStep(r: Registry, k: nat)
    requires 0 < k <= |Defaults|
    requires AddsFirstDefaults(r, AddDefaults(r, k - 1), k - 1)
    ensures AddsFirstDefaults(r, AddDefaults(r, k), k)
  {
    DefaultIndexOf(k - 1);
  }

  /**
   * After `_ensure_default_configs` the four default names are present, configs already
   * stored keep their entries and their order, every new entry is the default of its name, and an unset `current_config` becomes
   * "Local Development"; a set one, even one naming nothing, is kept.
   */
  lemma EnsureDefaultsSpec(r: Registry)
    requires Ordered(r)
    ensures var r' := EnsureDefaults(r);
      Ordered(r') &&
      (forall i :: 0 <= i < |Defaults| ==> Defaults[i].name in r'.configs) &&
      (forall n :: n in r.configs ==> n in r'.configs && r'.configs[n] == r.configs[n]) &&
      (forall n :: n in r'.configs && n !in r.configs ==> DefaultIndex(n) < |Defaults| && r'.configs[n] == Defaults[DefaultIndex(n)]) &&
      r.names <= r'.names &&
      (CurrentSet(r) ==> r'.current == r.current) &&
      (!CurrentSet(r) ==> r'.current == Some(LocalDevelopment) && GetCurrentConfig(r').Some?)
  {
    AddDefaultsKeeps(r, |Defaults|);
    AddDefaultsAdds(r, |Defaults|);
    assert Defaults[0].name == LocalDevelopment;
  }
}
