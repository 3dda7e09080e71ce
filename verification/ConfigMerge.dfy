/** The layers of a connect configuration: flags over environment over YAML over
    the selected profile, and where a profile's managed key may go. */
module ConfigMerge {
  import opened Text
  import opened Credentials
  import opened Profiles
  import opened StorePlanes

  /** The text settings of one layer; "" is unset. */
  datatype Values = Values(
    target: string, socks5Addr: string, controlURL: string, localAddr: string, hostname: string, stateDir: string,
    healthAddr: string, logFormat: string, bootstrapSSH: string, bootstrapSOCKSAddr: string)

  const UNSET := Values("", "", "", "", "", "", "", "", "", "")

  /** The environment, ./.env loaded. */
  datatype Env = Env(values: Values, authKey: string)

  /** The checks of formats that need net and net/url. */
  datatype Formats = Formats(target: string -> bool, listener: string -> bool, address: string -> bool, controlURL: string -> bool)

  class PartialConfig {
    var values: Values
    var authKey: string
    var routes: map<string, string>

    constructor (values: Values, authKey: string, routes: map<string, string>)
      ensures this.values == values && this.authKey == authKey && this.routes == routes
    {
      this.values := values;
      this.authKey := authKey;
      this.routes := routes;
    }
  }

  class FlagSet {
    var values: Values
    var routes: seq<string>
    var authKey: string
    var authKeyFile: string
    var profileAuthKey: string

    constructor (values: Values, routes: seq<string>, authKey: string, authKeyFile: string)
      ensures this.values == values && this.routes == routes && this.authKey == authKey && this.authKeyFile == authKeyFile
      ensures profileAuthKey == ""
    {
      this.values := values;
      this.routes := routes;
      this.authKey := authKey;
      this.authKeyFile := authKeyFile;
      profileAuthKey := "";
    }
  }

  // ---------------------------------------------------------------- layering

  /** A set value hides the one below it. */
  function Over(top: string, below: string): string {
    if top != "" then top else below
  }

  /** A layer that sets a target or a SOCKS5 listener decides the mode alone. */
  function ModeOver(top: Values, below: Values): Values {
    if top.target != "" then below.(target := top.target, socks5Addr := "")
    else if top.socks5Addr != "" then below.(socks5Addr := top.socks5Addr, target := "")
    else below
  }

  function SettingsOver(top: Values, below: Values): Values {
    Values(below.target, below.socks5Addr, Over(top.controlURL, below.controlURL), Over(top.localAddr, below.localAddr),
           Over(top.hostname, below.hostname), Over(top.stateDir, below.stateDir), Over(top.healthAddr, below.healthAddr),
           Over(top.logFormat, below.logFormat), Over(top.bootstrapSSH, below.bootstrapSSH),
           Over(top.bootstrapSOCKSAddr, below.bootstrapSOCKSAddr))
  }

  function LayerOver(top: Values, below: Values): Values {
    SettingsOver(top, ModeOver(top, below))
  }

  const DEFAULTS := UNSET.(logFormat := "text")

  /** The settings once every layer is applied. */
  function Layered(yaml: Values, env: Values, flags: Values): Values {
    LayerOver(flags, LayerOver(env, LayerOver(yaml, DEFAULTS)))
  }

  predicate OneMode(v: Values) {
    v.target == "" || v.socks5Addr == ""
  }

  /** One route of the flags, "source=destination". */
  function RouteOver(route: string, routes: map<string, string>): map<string, string> {
    var (source, destination, ok) := Cut(route, '=');
    if ok then routes[source := destination] else routes[route := ""]
  }

  function RoutesOver(list: seq<string>, routes: map<string, string>): map<string, string>
    decreases |list|
  {
    if list == [] then routes else RouteOver(list[|list| - 1], RoutesOver(list[..|list| - 1], routes))
  }

  // -------------------------------------------------------------------- Merge

  datatype Merged = Merged(values: Values, authKey: string, routes: map<string, string>)
  datatype MergeResult = Ok(config: Merged) | Refused

  class Config {
    var values: Values
    var authKey: string
    var routes: map<string, string>

    /** defaults. */
    constructor ()
      ensures values == DEFAULTS && authKey == "" && routes == map[]
    {
      values := DEFAULTS;
      authKey := "";
      routes := map[];
    }

    /** applyYAML: the mode settings each on their own. */
    method ApplyYaml(yaml: PartialConfig)
      requires OneMode(yaml.values) && values.target == values.socks5Addr == "" && routes == map[]
      modifies this
      ensures values == LayerOver(yaml.values, old(values)) && authKey == old(authKey)
      ensures routes == yaml.routes
    {
      var v := yaml.values;
      if v.target != "" {
        values := values.(target := v.target);
      }
      if v.socks5Addr != "" {
        values := values.(socks5Addr := v.socks5Addr);
      }
      ApplySettings(v);
      var left := yaml.routes.Keys;
      while left != {}
        invariant left <= yaml.routes.Keys && routes.Keys == yaml.routes.Keys - left
        invariant forall s | s in routes :: routes[s] == yaml.routes[s]
        invariant values == LayerOver(yaml.values, old(values)) && authKey == old(authKey)
        decreases |left|
      {
        var source :| source in left;
        routes := routes[source := yaml.routes[source]];
        left := left - {source};
      }
    }

    /** The plain string settings, each where it is set. */
    method ApplySettings(v: Values)
      modifies this`values
      ensures values == SettingsOver(v, old(values))
    {
      values := values.(controlURL := Over(v.controlURL, values.controlURL), localAddr := Over(v.localAddr, values.localAddr));
      values := values.(hostname := Over(v.hostname, values.hostname), stateDir := Over(v.stateDir, values.stateDir));
      values := values.(healthAddr := Over(v.healthAddr, values.healthAddr), logFormat := Over(v.logFormat, values.logFormat));
      values := values.(bootstrapSSH := Over(v.bootstrapSSH, values.bootstrapSSH),
                        bootstrapSOCKSAddr := Over(v.bootstrapSOCKSAddr, values.bootstrapSOCKSAddr));
    }

    /** applyEnvProxyMode and applyFlagProxyMode. */
    method ApplyMode(v: Values)
      modifies this`values
      ensures values == ModeOver(v, old(values))
    {
      if v.target != "" {
        values := values.(target := v.target, socks5Addr := "");
        return;
      }
      if v.socks5Addr != "" {
        values := values.(socks5Addr := v.socks5Addr, target := "");
      }
    }

    /** applyEnv. */
    method ApplyEnv(env: Env)
      modifies this`values, this`authKey
      ensures values == LayerOver(env.values, old(values)) && authKey == Over(env.authKey, old(authKey))
    {
      ApplyMode(env.values);
      authKey := Over(env.authKey, authKey);
      ApplySettings(env.values);
    }

    /** applyFlags. */
    method ApplyFlags(flags: FlagSet)
      modifies this
      ensures values == LayerOver(flags.values, old(values)) && authKey == Over(flags.authKey, old(authKey))
      ensures routes == RoutesOver(flags.routes, old(routes))
    {
      ApplyMode(flags.values);
      authKey := Over(flags.authKey, authKey);
      ApplySettings(flags.values);
      for i := 0 to |flags.routes|
        invariant routes == RoutesOver(flags.routes[..i], old(routes))
        invariant values == LayerOver(flags.values, old(values)) && authKey == Over(flags.authKey, old(authKey))
      {
        assert flags.routes[..i + 1][..i] == flags.routes[..i];
        var (source, destination, ok) := Cut(flags.routes[i], '=');
        if !ok {
          routes := routes[flags.routes[i] := ""];
          continue;
        }
        routes := routes[source := destination];
      }
      assert flags.routes[..|flags.routes|] == flags.routes;
    }
  }

  /** validateMergedProxyConfig. */
  predicate ProxyConfigIsValid(formats: Formats, m: Merged) {
    var v := m.values;
    && (v.target == "" || formats.target(v.target))
    && (v.socks5Addr == "" || formats.listener(v.socks5Addr))
    && (forall s | s in m.routes :: formats.address(s) && formats.address(m.routes[s]))
    && (v.target != "" ==> m.routes == map[])
    && (v.target != "" || v.socks5Addr != "")
    && IsValidKey(m.authKey)
  }

  /** ValidateControlPlane. */
  predicate ControlPlaneIsValid(formats: Formats, authKey: string, controlURL: string) {
    && (HasPrefix(authKey, "hskey-") ==> TrimSpace(controlURL) != "")
    && (TrimSpace(controlURL) != "" ==> formats.controlURL(TrimSpace(controlURL)))
  }

  const DEFAULT_BOOTSTRAP_SOCKS := "127.0.0.1:1055"

  /** normalizeBootstrapConfig: None when it refuses. */
  function Bootstrapped(formats: Formats, v: Values): Option<Values> {
    var ssh, socks := TrimSpace(v.bootstrapSSH), TrimSpace(v.bootstrapSOCKSAddr);
    if ssh == "" then if socks != "" then None else Some(v.(bootstrapSSH := "", bootstrapSOCKSAddr := ""))
    else if v.controlURL == "" then None
    else
      var listener := if socks == "" then DEFAULT_BOOTSTRAP_SOCKS else socks;
      if formats.listener(listener) then Some(v.(bootstrapSSH := ssh, bootstrapSOCKSAddr := listener)) else None
  }

  /** What Merge makes of its layers, up to the values it derives for auto mode. */
  function MergeOf(formats: Formats, yaml: Values, yamlKey: string, yamlRoutes: map<string, string>, env: Env,
                   flags: Values, flagKey: string, flagRoutes: seq<string>, profileKey: string): MergeResult {
    if yamlKey != "" || !OneMode(yaml) || !OneMode(env.values) || !OneMode(flags) then Refused
    else
      var v := Layered(yaml, env.values, flags);
      var m := Merged(v, Over(flagKey, Over(env.authKey, profileKey)), RoutesOver(flagRoutes, yamlRoutes));
      var trimmed := v.(controlURL := TrimSpace(v.controlURL));
      if !ProxyConfigIsValid(formats, m) || !ControlPlaneIsValid(formats, m.authKey, trimmed.controlURL) then Refused
      else
        match Bootstrapped(formats, trimmed)
        case None => Refused
        case Some(values) => Ok(m.(values := values))
  }

  /** Merge. */
  method Merge(formats: Formats, yaml: PartialConfig, env: Env, flags: FlagSet) returns (result: MergeResult)
    ensures result == MergeOf(formats, yaml.values, yaml.authKey, yaml.routes, env,
                              flags.values, flags.authKey, flags.routes, flags.profileAuthKey)
  {
    if yaml.authKey != "" || !OneMode(yaml.values) || !OneMode(env.values) || !OneMode(flags.values) {
      return Refused;
    }
    var cfg := new Config();
    cfg.ApplyYaml(yaml);
    cfg.ApplyEnv(env);
    if cfg.authKey == "" {
      cfg.authKey := flags.profileAuthKey;
    }
    cfg.ApplyFlags(flags);
    var m := Merged(cfg.values, cfg.authKey, cfg.routes);
    if !ProxyConfigIsValid(formats, m) {
      return Refused;
    }
    cfg.values := cfg.values.(controlURL := TrimSpace(cfg.values.controlURL));
    if !ControlPlaneIsValid(formats, cfg.authKey, cfg.values.controlURL) {
      return Refused;
    }
    var values := Bootstrapped(formats, cfg.values);
    if values == None {
      return Refused;
    }
    return Ok(m.(values := values.value));
  }

  // --------------------------------------------------------------- the profile

  /** overridingControlURL: what a layer above the profile imposes. */
  function OverridingControlURL(flags: Values, env: Env, yaml: Values): Option<string> {
    var raw := Over(flags.controlURL, Over(env.values.controlURL, yaml.controlURL));
    if raw == "" then None else Some(TrimSpace(raw))
  }

  /** loadBoundProfileCredential: Some("") when the profile has none, None when it
      refuses. */
  function BoundKey(canon: Canon, selected: Entry, keys: Keys, flags: Values, env: Env, yaml: Values): Option<string> {
    var imposed := OverridingControlURL(flags, env, yaml);
    if selected.credential == "" then Some("")
    else if imposed.Some? && !SamePlane(canon, imposed.value, selected.controlURL) then None
    else
      match Get(keys, selected.credential)
      case Key(key) => Some(key)
      case _ => None
  }

  /** The profile below the YAML layer. */
  function Filled(yaml: Values, selected: Entry): Values {
    var r := selected.runtime;
    yaml.(target := Over(yaml.target, selected.target), controlURL := Over(yaml.controlURL, selected.controlURL),
          bootstrapSSH := Over(yaml.bootstrapSSH, r.bootstrapSSH), bootstrapSOCKSAddr := Over(yaml.bootstrapSOCKSAddr, r.bootstrapSOCKSAddr),
          hostname := Over(yaml.hostname, r.hostname), stateDir := Over(yaml.stateDir, r.stateDir),
          localAddr := Over(yaml.localAddr, r.localAddr), healthAddr := Over(yaml.healthAddr, r.healthAddr))
  }

  /** The managed key is looked up only where no key is given otherwise. */
  predicate WantsManagedKey(authKey: string, authKeyFile: string, env: Env) {
    authKey == "" && authKeyFile == "" && env.authKey == ""
  }

  /** applyConnectProfile, on the profile and the keys of one store state. */
  method ApplyConnectProfile(canon: Canon, yaml: PartialConfig, flags: FlagSet, env: Env, selected: Entry, keys: Keys) returns (ok: bool)
    modifies yaml, flags
    ensures flags.values == old(flags.values) && flags.routes == old(flags.routes)
    ensures flags.authKey == old(flags.authKey) && flags.authKeyFile == old(flags.authKeyFile)
    ensures yaml.authKey == old(yaml.authKey) && yaml.routes == old(yaml.routes)
    ensures ok <==> (WantsManagedKey(flags.authKey, flags.authKeyFile, env) ==>
                       BoundKey(canon, selected, keys, flags.values, env, old(yaml.values)).Some?)
    ensures ok ==> yaml.values == Filled(old(yaml.values), selected)
    ensures ok && WantsManagedKey(flags.authKey, flags.authKeyFile, env) ==>
              flags.profileAuthKey == BoundKey(canon, selected, keys, flags.values, env, old(yaml.values)).value
    ensures !WantsManagedKey(flags.authKey, flags.authKeyFile, env) ==> flags.profileAuthKey == old(flags.profileAuthKey)
  {
    if flags.authKey == "" && flags.authKeyFile == "" && env.authKey == "" {
      var key := BoundKey(canon, selected, keys, flags.values, env, yaml.values);
      if key == None {
        return false;
      }
      flags.profileAuthKey := key.value;
    }
    if yaml.values.target == "" {
      yaml.values := yaml.values.(target := selected.target);
    }
    if yaml.values.controlURL == "" {
      yaml.values := yaml.values.(controlURL := selected.controlURL);
    }
    ApplyProfileRuntime(yaml, selected);
    return true;
  }

  /** applyProfileRuntime. */
  method ApplyProfileRuntime(yaml: PartialConfig, selected: Entry)
    modifies yaml`values
    ensures yaml.values == Filled(old(yaml.values), selected).(target := old(yaml.values.target), controlURL := old(yaml.values.controlURL))
  {
    var v, r := yaml.values, selected.runtime;
    v := v.(bootstrapSSH := Over(v.bootstrapSSH, r.bootstrapSSH), bootstrapSOCKSAddr := Over(v.bootstrapSOCKSAddr, r.bootstrapSOCKSAddr));
    v := v.(hostname := Over(v.hostname, r.hostname), stateDir := Over(v.stateDir, r.stateDir));
    yaml.values := v.(localAddr := Over(v.localAddr, r.localAddr), healthAddr := Over(v.healthAddr, r.healthAddr));
  }

  /** What connect runs on: nothing where the profile is missing or the managed key is wanted and may not be
      used, else the merge of its layers over the profile. */
  function Connected(canon: Canon, formats: Formats, yaml: Values, yamlKey: string, yamlRoutes: map<string, string>, env: Env,
                     flags: Values, flagKey: string, flagKeyFile: string, flagRoutes: seq<string>, selection: Option<Entry>, keys: Keys): MergeResult {
    match selection
    case None => Refused
    case Some(selected) =>
      var wanted := WantsManagedKey(flagKey, flagKeyFile, env);
      var key := BoundKey(canon, selected, keys, flags, env, yaml);
      if wanted && key == None then Refused
      else MergeOf(formats, Filled(yaml, selected), yamlKey, yamlRoutes, env, flags, flagKey, flagRoutes, if wanted then key.value else "")
  }

  /** loadCommandProfile: no name selects an empty profile, None one that does not exist. */
  function Selected(d: Disk, profile: string): Option<Entry> {
    if profile == "" then Some(ZERO_ENTRY)
    else if profile in d.profiles then Some(d.profiles[profile])
    else None
  }

  /** connect, from the profile it reads to the configuration it runs: the
      managed key goes only to the plane it was issued for. */
  method Connect(canon: Canon, formats: Formats, yaml: PartialConfig, flags: FlagSet, env: Env, d: Disk, profile: string) returns (result: MergeResult)
    requires Consistent(canon, d) && flags.profileAuthKey == ""
    modifies yaml, flags
    ensures result == Connected(canon, formats, old(yaml.values), yaml.authKey, yaml.routes, env,
                                flags.values, flags.authKey, flags.authKeyFile, flags.routes, Selected(d, profile), d.keys)
    ensures result.Ok? ==> (result.config.values.target == "") != (result.config.values.socks5Addr == "")
    ensures result.Ok? && WantsManagedKey(flags.authKey, flags.authKeyFile, env) ==>
              var selected := Selected(d, profile);
              && selected.Some? && var c := selected.value.credential;
              && c in d.keys && Get(d.keys, c) == Key(result.config.authKey)
              && SamePlane(canon, result.config.values.controlURL, d.keys[c].plane)
  {
    if profile != "" && profile !in d.profiles {
      return Refused;
    }
    var selected := Selected(d, profile).value;
    ghost var y := yaml.values;
    var ok := ApplyConnectProfile(canon, yaml, flags, env, selected, d.keys);
    if !ok {
      return Refused;
    }
    result := Merge(formats, yaml, env, flags);
    if result.Ok? {
      ModeIsOne(formats, yaml.values, yaml.authKey, yaml.routes, env, flags.values, flags.authKey, flags.routes, flags.profileAuthKey);
      if WantsManagedKey(flags.authKey, flags.authKeyFile, env) && profile != "" {
        ManagedKeyStaysOnItsPlane(canon, formats, d, profile, y, yaml.authKey, yaml.routes, env, flags.values, flags.routes);
      }
    }
  }

  // --------------------------------------------------------------- what it means

  /** The control URL a merge ends with: the highest layer's, trimmed. */
  lemma MergedControlURL(formats: Formats, yaml: Values, yamlKey: string, yamlRoutes: map<string, string>, env: Env,
                         flags: Values, flagKey: string, flagRoutes: seq<string>, profileKey: string)
    requires MergeOf(formats, yaml, yamlKey, yamlRoutes, env, flags, flagKey, flagRoutes, profileKey).Ok?
    ensures MergeOf(formats, yaml, yamlKey, yamlRoutes, env, flags, flagKey, flagRoutes, profileKey).config.values.controlURL
         == TrimSpace(Over(flags.controlURL, Over(env.values.controlURL, yaml.controlURL)))
    ensures MergeOf(formats, yaml, yamlKey, yamlRoutes, env, flags, flagKey, flagRoutes, profileKey).config.authKey
         == Over(flagKey, Over(env.authKey, profileKey))
  {
    var v := Layered(yaml, env.values, flags);
    LayeredControlURL(yaml, env.values, flags);
    BootstrappedKeeps(formats, v.(controlURL := TrimSpace(v.controlURL)));
  }

  lemma LayeredControlURL(yaml: Values, env: Values, flags: Values)
    ensures Layered(yaml, env, flags).controlURL == Over(flags.controlURL, Over(env.controlURL, yaml.controlURL))
  {}

  /** The bootstrap settings are all that normalizing them touches. */
  lemma BootstrappedKeeps(formats: Formats, v: Values)
    ensures match Bootstrapped(formats, v)
            case None => true
            case Some(w) => w == v.(bootstrapSSH := w.bootstrapSSH, bootstrapSOCKSAddr := w.bootstrapSOCKSAddr)
  {}

  /** A merged configuration forwards to a target or listens for SOCKS5, never
      both, as the highest layer that sets either says. */
  lemma ModeIsOne(formats: Formats, yaml: Values, yamlKey: string, yamlRoutes: map<string, string>, env: Env,
                  flags: Values, flagKey: string, flagRoutes: seq<string>, profileKey: string)
    requires MergeOf(formats, yaml, yamlKey, yamlRoutes, env, flags, flagKey, flagRoutes, profileKey).Ok?
    ensures var v := MergeOf(formats, yaml, yamlKey, yamlRoutes, env, flags, flagKey, flagRoutes, profileKey).config.values;
            var top := if SetsMode(flags) then flags else if SetsMode(env.values) then env.values else yaml;
            (v.target == "") != (v.socks5Addr == "") && v.target == top.target && v.socks5Addr == top.socks5Addr
  {}

  predicate SetsMode(v: Values) {
    v.target != "" || v.socks5Addr != ""
  }

  /** For every layering, with profile and key read from one store state: a merge
      that succeeds with the managed key runs on the plane it was issued for. */
  lemma ManagedKeyStaysOnItsPlane(canon: Canon, formats: Formats, d: Disk, profile: string, yaml: Values, yamlKey: string,
                                  yamlRoutes: map<string, string>, env: Env, flags: Values, flagRoutes: seq<string>)
    requires Consistent(canon, d) && profile in d.profiles && env.authKey == ""
    requires BoundKey(canon, d.profiles[profile], d.keys, flags, env, yaml).Some?
    ensures var selected := d.profiles[profile];
            var key := BoundKey(canon, selected, d.keys, flags, env, yaml).value;
            var merged := MergeOf(formats, Filled(yaml, selected), yamlKey, yamlRoutes, env, flags, "", flagRoutes, key);
            merged.Ok? ==>
              && merged.config.authKey == key
              && selected.credential in d.keys && Get(d.keys, selected.credential) == Key(key)
              && SamePlane(canon, merged.config.values.controlURL, d.keys[selected.credential].plane)
  {
    var selected := d.profiles[profile];
    var key := BoundKey(canon, selected, d.keys, flags, env, yaml).value;
    var filled := Filled(yaml, selected);
    var merged := MergeOf(formats, filled, yamlKey, yamlRoutes, env, flags, "", flagRoutes, key);
    if merged.Ok? {
      MergedControlURL(formats, filled, yamlKey, yamlRoutes, env, flags, "", flagRoutes, key);
      assert selected.credential != "";
      assert Refers(d.profiles, profile, selected.credential);
      var raw := Over(flags.controlURL, Over(env.values.controlURL, yaml.controlURL));
      SpaceAndSlashNameOnePlane(canon, selected.controlURL);
      assert SamePlane(canon, merged.config.values.controlURL, selected.controlURL);
    }
  }
}
