/** Which layer each merged setting comes from, and when a merge is refused. */
module ConfigPrecedence {
  import opened Text
  import opened Credentials
  import opened Profiles
  import opened ConfigMerge

  /** What wins: the flag where it is set, else the environment, else YAML, else
      the profile, else the default. */
  predicate Wins(value: string, flag: string, env: string, yaml: string, profile: string, fallback: string) {
    && (flag != "" ==> value == flag)
    && (flag == "" && env != "" ==> value == env)
    && (flag == "" && env == "" && yaml != "" ==> value == yaml)
    && (flag == "" && env == "" && yaml == "" && profile != "" ==> value == profile)
    && (flag == "" && env == "" && yaml == "" && profile == "" ==> value == fallback)
  }

  /** The settings of a profile, and those it has none of. */
  function ProfileValues(selected: Entry): Values {
    var r := selected.runtime;
    Values(selected.target, "", selected.controlURL, r.localAddr, r.hostname, r.stateDir, r.healthAddr, "", r.bootstrapSSH, r.bootstrapSOCKSAddr)
  }

  /** The plain settings, each from the layer that wins it. */
  predicate PlainSettings(v: Values, flags: Values, env: Values, yaml: Values, profile: Values) {
    && Wins(v.localAddr, flags.localAddr, env.localAddr, yaml.localAddr, profile.localAddr, "")
    && Wins(v.hostname, flags.hostname, env.hostname, yaml.hostname, profile.hostname, "")
    && Wins(v.stateDir, flags.stateDir, env.stateDir, yaml.stateDir, profile.stateDir, "")
    && Wins(v.healthAddr, flags.healthAddr, env.healthAddr, yaml.healthAddr, profile.healthAddr, "")
    && Wins(v.logFormat, flags.logFormat, env.logFormat, yaml.logFormat, profile.logFormat, "text")
  }

  /** The three settings that are trimmed, before they are. */
  predicate RawSettings(url: string, ssh: string, socks: string, flags: Values, env: Values, yaml: Values, profile: Values) {
    && Wins(url, flags.controlURL, env.controlURL, yaml.controlURL, profile.controlURL, "")
    && Wins(ssh, flags.bootstrapSSH, env.bootstrapSSH, yaml.bootstrapSSH, profile.bootstrapSSH, "")
    && Wins(socks, flags.bootstrapSOCKSAddr, env.bootstrapSOCKSAddr, yaml.bootstrapSOCKSAddr, profile.bootstrapSOCKSAddr, "")
  }

  /** How they come out: no bootstrap, or one with a listener of its own. */
  predicate TrimmedSettings(v: Values, url: string, ssh: string, socks: string) {
    && v.controlURL == TrimSpace(url)
    && v.bootstrapSSH == TrimSpace(ssh)
    && (TrimSpace(ssh) == "" ==> TrimSpace(socks) == "" && v.bootstrapSOCKSAddr == "")
    && (TrimSpace(ssh) != "" && TrimSpace(socks) == "" ==> v.bootstrapSOCKSAddr == "127.0.0.1:1055")
    && (TrimSpace(ssh) != "" && TrimSpace(socks) != "" ==> v.bootstrapSOCKSAddr == TrimSpace(socks))
  }

  /** The mode of the highest layer that sets one. */
  predicate ModeWins(target: string, socks5: string, flags: Values, env: Values, yaml: Values) {
    if flags.target != "" || flags.socks5Addr != "" then target == flags.target && socks5 == flags.socks5Addr
    else if env.target != "" || env.socks5Addr != "" then target == env.target && socks5 == env.socks5Addr
    else target == yaml.target && socks5 == yaml.socks5Addr
  }

  // -------------------------------------------------------------------- routes

  /** A flag's route: what stands before the first "=" and what follows it, or no
      destination where there is no "=". */
  predicate IsRoute(route: string, source: string, destination: string) {
    || ('=' !in source && route == source + "=" + destination)
    || ('=' !in route && source == route && destination == "")
  }

  /** Route i is the last of the list with that source. */
  ghost predicate IsLastRoute(list: seq<string>, i: nat, source: string, destination: string) {
    && i < |list| && IsRoute(list[i], source, destination)
    && forall j, other | i < j < |list| :: !IsRoute(list[j], source, other)
  }

  ghost predicate HasRoute(list: seq<string>, source: string) {
    exists i: nat, destination | i < |list| :: IsRoute(list[i], source, destination)
  }

  /** The last route of the flags with a source decides it, else YAML's route. */
  ghost predicate RoutesWin(routes: map<string, string>, flags: seq<string>, yaml: map<string, string>) {
    && (forall i: nat, source, destination | IsLastRoute(flags, i, source, destination) ::
          source in routes && routes[source] == destination)
    && (forall source | !HasRoute(flags, source) ::
          (source in routes <==> source in yaml) && (source in yaml ==> routes[source] == yaml[source]))
  }

  lemma CutIsRoute(route: string)
    ensures var (source, destination, ok) := Cut(route, '=');
            IsRoute(route, if ok then source else route, if ok then destination else "")
  {
    var parts := Split(route, '=');
    SplitPartsHoldNoSeparator(route, '=');
    JoinOfSplit(route, '=');
    assert parts[0] in parts;
    if |parts| == 1 {
      assert route == parts[0];
    } else {
      assert route == parts[0] + "=" + Join(parts[1..], '=');
    }
  }

  lemma RouteIsCut(route: string, source: string, destination: string)
    requires IsRoute(route, source, destination)
    ensures var (s, d, ok) := Cut(route, '='); source == (if ok then s else route) && destination == if ok then d else ""
  {
    if '=' !in source && route == source + "=" + destination {
      CutAtFirst(source, destination, '=');
    } else {
      SplitOfOnePart(route, '=');
    }
  }

  lemma {:induction false} LastRouteWins(list: seq<string>, yaml: map<string, string>)
    ensures RoutesWin(RoutesOver(list, yaml), list, yaml)
    decreases |list|
  {
    if list != [] {
      var front, last := list[..|list| - 1], list[|list| - 1];
      assert list == front + [last];
      LastRouteWins(front, yaml);
      CutIsRoute(last);
      var (s, d, ok) := Cut(last, '=');
      var source, destination := if ok then s else last, if ok then d else "";
      assert RoutesOver(list, yaml) == RoutesOver(front, yaml)[source := destination];
      OneMoreRoute(front, last, source, destination, RoutesOver(front, yaml), yaml);
    }
  }

  lemma OneMoreRoute(front: seq<string>, last: string, source: string, destination: string, routes: map<string, string>, yaml: map<string, string>)
    requires RoutesWin(routes, front, yaml) && IsRoute(last, source, destination)
    ensures RoutesWin(routes[source := destination], front + [last], yaml)
  {
    var list := front + [last];
    forall i: nat, s, d | IsLastRoute(list, i, s, d)
      ensures s in routes[source := destination] && routes[source := destination][s] == d
    {
      if i == |front| {
        RouteIsCut(last, s, d);
        RouteIsCut(last, source, destination);
      } else {
        assert list[|front|] == last && !IsRoute(last, s, destination);
        assert s != source;
        assert forall j | i < j < |front| :: front[j] == list[j];
        assert IsLastRoute(front, i, s, d);
      }
    }
    assert list[|front|] == last;
    assert HasRoute(list, source);
    forall s | HasRoute(front, s)
      ensures HasRoute(list, s)
    {
      var i: nat, d :| i < |front| && IsRoute(front[i], s, d);
      assert list[i] == front[i];
    }
  }

  lemma {:induction false} LastRouteExists(list: seq<string>, source: string)
    requires HasRoute(list, source)
    ensures exists i: nat, destination :: IsLastRoute(list, i, source, destination)
    decreases |list|
  {
    var front, last := list[..|list| - 1], list[|list| - 1];
    if destination :| IsRoute(last, source, destination) {
      assert IsLastRoute(list, |front|, source, destination);
    } else {
      var i: nat, d :| i < |list| && IsRoute(list[i], source, d);
      assert front[i] == list[i];
      LastRouteExists(front, source);
      var k: nat, e :| IsLastRoute(front, k, source, e);
      assert forall j, other: string | k < j < |list| :: !IsRoute(list[j], source, other) by {
        assert forall j | k < j < |front| :: front[j] == list[j];
      }
      assert IsLastRoute(list, k, source, e);
    }
  }

  /** The routes that win are determined. */
  lemma RoutesAreOne(a: map<string, string>, b: map<string, string>, flags: seq<string>, yaml: map<string, string>)
    requires RoutesWin(a, flags, yaml) && RoutesWin(b, flags, yaml)
    ensures a == b
  {
    forall source
      ensures (source in a <==> source in b) && (source in a ==> a[source] == b[source])
    {
      if HasRoute(flags, source) {
        LastRouteExists(flags, source);
        var i: nat, d :| IsLastRoute(flags, i, source, d);
      }
    }
  }

  // ------------------------------------------------------------------- a merge

  lemma PlainLayers(yaml: Values, env: Values, flags: Values)
    ensures PlainSettings(Layered(yaml, env, flags), flags, env, yaml, UNSET)
  {}

  lemma RawLayers(yaml: Values, env: Values, flags: Values)
    ensures var v := Layered(yaml, env, flags);
            RawSettings(v.controlURL, v.bootstrapSSH, v.bootstrapSOCKSAddr, flags, env, yaml, UNSET)
  {}

  lemma ModeLayers(yaml: Values, env: Values, flags: Values)
    requires OneMode(yaml) && OneMode(env) && OneMode(flags)
    ensures ModeWins(Layered(yaml, env, flags).target, Layered(yaml, env, flags).socks5Addr, flags, env, yaml)
  {}

  /** One layer sets at most one mode. */
  predicate SetsOneMode(v: Values) {
    v.target == "" || v.socks5Addr == ""
  }

  /** What the merged mode, routes and key must be. */
  predicate CanProxy(formats: Formats, target: string, socks5: string, routes: map<string, string>, key: string) {
    && (target != "" || socks5 != "")
    && (target != "" ==> formats.target(target) && routes == map[])
    && (socks5 != "" ==> formats.listener(socks5))
    && (forall s | s in routes :: formats.address(s) && formats.address(routes[s]))
    && IsValidKey(key)
  }

  /** What the control URL and the bootstrap must be. */
  predicate CanReach(formats: Formats, url: string, ssh: string, socks: string, key: string) {
    && (HasPrefix(key, "hskey-") ==> TrimSpace(url) != "")
    && (TrimSpace(url) != "" ==> formats.controlURL(TrimSpace(url)))
    && (TrimSpace(ssh) == "" ==> TrimSpace(socks) == "")
    && (TrimSpace(ssh) != "" ==>
          TrimSpace(url) != "" && formats.listener(if TrimSpace(socks) == "" then "127.0.0.1:1055" else TrimSpace(socks)))
  }

  /** The settings a configuration is made of before they are trimmed. */
  datatype Chosen = Chosen(target: string, socks5: string, url: string, ssh: string, socks: string, key: string, routes: map<string, string>)

  predicate CanRun(formats: Formats, c: Chosen) {
    CanProxy(formats, c.target, c.socks5, c.routes, c.key) && CanReach(formats, c.url, c.ssh, c.socks, c.key)
  }

  /** The configuration made of them. */
  predicate MadeOf(m: Merged, c: Chosen) {
    && m.values.target == c.target && m.values.socks5Addr == c.socks5 && m.authKey == c.key && m.routes == c.routes
    && TrimmedSettings(m.values, c.url, c.ssh, c.socks)
  }

  /** A merge succeeds exactly when no key is in YAML, each layer sets at most one
      mode, and the settings that win are ones it can run on; every setting then
      comes from the layer that wins it. */
  lemma MergeExactly(formats: Formats, yaml: Values, yamlKey: string, yamlRoutes: map<string, string>, env: Env,
                     flags: Values, flagKey: string, flagRoutes: seq<string>, profileKey: string, c: Chosen)
    requires ModeWins(c.target, c.socks5, flags, env.values, yaml)
    requires RawSettings(c.url, c.ssh, c.socks, flags, env.values, yaml, UNSET)
    requires Wins(c.key, flagKey, env.authKey, "", profileKey, "") && RoutesWin(c.routes, flagRoutes, yamlRoutes)
    ensures var merged := MergeOf(formats, yaml, yamlKey, yamlRoutes, env, flags, flagKey, flagRoutes, profileKey);
            && (merged.Ok? <==>
                  yamlKey == "" && SetsOneMode(yaml) && SetsOneMode(env.values) && SetsOneMode(flags) && CanRun(formats, c))
            && (merged.Ok? ==> MadeOf(merged.config, c) && PlainSettings(merged.config.values, flags, env.values, yaml, UNSET))
  {
    LastRouteWins(flagRoutes, yamlRoutes);
    RoutesAreOne(c.routes, RoutesOver(flagRoutes, yamlRoutes), flagRoutes, yamlRoutes);
    if SetsOneMode(yaml) && SetsOneMode(env.values) && SetsOneMode(flags) {
      var v := Layered(yaml, env.values, flags);
      PlainLayers(yaml, env.values, flags);
      LayersChoose(v, yaml, env.values, flags, c);
      LayersKeep(formats, v, flags, env.values, yaml, c);
      KeyOver(c.key, flagKey, env.authKey, profileKey);
      MergeSteps(formats, yaml, yamlKey, yamlRoutes, env, flags, flagKey, flagRoutes, profileKey, v, Merged(v, c.key, c.routes));
    }
  }

  lemma KeyOver(key: string, flag: string, env: string, profile: string)
    requires Wins(key, flag, env, "", profile, "")
    ensures key == Over(flag, Over(env, profile))
  {}

  /** The layered settings are accepted. */
  predicate Accepted(formats: Formats, m: Merged) {
    var trimmed := m.values.(controlURL := TrimSpace(m.values.controlURL));
    ProxyConfigIsValid(formats, m) && ControlPlaneIsValid(formats, m.authKey, trimmed.controlURL) && Bootstrapped(formats, trimmed).Some?
  }

  lemma MergeSteps(formats: Formats, yaml: Values, yamlKey: string, yamlRoutes: map<string, string>, env: Env,
                   flags: Values, flagKey: string, flagRoutes: seq<string>, profileKey: string, v: Values, m: Merged)
    requires OneMode(yaml) && OneMode(env.values) && OneMode(flags) && v == Layered(yaml, env.values, flags)
    requires m == Merged(v, Over(flagKey, Over(env.authKey, profileKey)), RoutesOver(flagRoutes, yamlRoutes))
    ensures MergeOf(formats, yaml, yamlKey, yamlRoutes, env, flags, flagKey, flagRoutes, profileKey)
         == if yamlKey == "" && Accepted(formats, m) then Ok(m.(values := Bootstrapped(formats, v.(controlURL := TrimSpace(v.controlURL))).value))
            else Refused
  {}

  /** The layered settings are the ones that win. */
  predicate Chooses(v: Values, c: Chosen) {
    && v.target == c.target && v.socks5Addr == c.socks5
    && v.controlURL == c.url && v.bootstrapSSH == c.ssh && v.bootstrapSOCKSAddr == c.socks
  }

  lemma LayersChoose(v: Values, yaml: Values, env: Values, flags: Values, c: Chosen)
    requires v == Layered(yaml, env, flags) && OneMode(yaml) && OneMode(env) && OneMode(flags)
    requires ModeWins(c.target, c.socks5, flags, env, yaml) && RawSettings(c.url, c.ssh, c.socks, flags, env, yaml, UNSET)
    ensures Chooses(v, c) && SetsOneMode(v)
  {
    ModeLayers(yaml, env, flags);
    RawLayers(yaml, env, flags);
  }

  /** The layered settings, accepted where they can be run on. */
  lemma LayersKeep(formats: Formats, v: Values, flags: Values, env: Values, yaml: Values, c: Chosen)
    requires PlainSettings(v, flags, env, yaml, UNSET) && SetsOneMode(v)
    requires Chooses(v, c)
    ensures var trimmed := v.(controlURL := TrimSpace(v.controlURL));
            var m := Merged(v, c.key, c.routes);
            var out := Bootstrapped(formats, trimmed);
            && (Accepted(formats, m) <==> CanRun(formats, c))
            && (Accepted(formats, m) ==> MadeOf(m.(values := out.value), c) && PlainSettings(out.value, flags, env, yaml, UNSET))
  {
    LayersProxy(formats, v, c.key, c.routes);
    LayersReach(formats, v, c.key);
  }

  lemma LayersProxy(formats: Formats, v: Values, key: string, routes: map<string, string>)
    requires v.target == "" || v.socks5Addr == ""
    ensures ProxyConfigIsValid(formats, Merged(v, key, routes)) <==> CanProxy(formats, v.target, v.socks5Addr, routes, key)
  {}

  lemma LayersReach(formats: Formats, v: Values, key: string)
    ensures var trimmed := v.(controlURL := TrimSpace(v.controlURL));
            var bootstrapped := Bootstrapped(formats, trimmed);
            var reaches := ControlPlaneIsValid(formats, key, trimmed.controlURL) && bootstrapped.Some?;
            && (reaches <==> CanReach(formats, v.controlURL, v.bootstrapSSH, v.bootstrapSOCKSAddr, key))
            && (bootstrapped.Some? ==>
                  && TrimmedSettings(bootstrapped.value, v.controlURL, v.bootstrapSSH, v.bootstrapSOCKSAddr)
                  && bootstrapped.value == trimmed.(bootstrapSSH := bootstrapped.value.bootstrapSSH,
                                                    bootstrapSOCKSAddr := bootstrapped.value.bootstrapSOCKSAddr))
  {
    TrimIsIdempotent(v.controlURL);
  }

  // ----------------------------------------------------------- over the profile

  /** YAML with the profile's target below it. */
  predicate LowestMode(low: Values, yaml: Values, selected: Entry) {
    low.socks5Addr == yaml.socks5Addr && low.target == if yaml.target != "" then yaml.target else selected.target
  }

  lemma FilledIsBelow(yaml: Values, selected: Entry)
    ensures LowestMode(Filled(yaml, selected), yaml, selected)
  {}

  lemma PlainBelow(v: Values, flags: Values, env: Values, yaml: Values, selected: Entry)
    ensures PlainSettings(v, flags, env, Filled(yaml, selected), UNSET) <==> PlainSettings(v, flags, env, yaml, ProfileValues(selected))
  {}

  lemma RawBelow(url: string, ssh: string, socks: string, flags: Values, env: Values, yaml: Values, selected: Entry)
    ensures RawSettings(url, ssh, socks, flags, env, Filled(yaml, selected), UNSET)
       <==> RawSettings(url, ssh, socks, flags, env, yaml, ProfileValues(selected))
  {}

  /** The managed key may be used: no layer above the profile imposes another
      plane, and the key can be read. */
  predicate KeyIsUsable(canon: Canon, selected: Entry, keys: Keys, imposed: string) {
    && (imposed == "" || SamePlane(canon, imposed, selected.controlURL))
    && Get(keys, selected.credential).Key?
  }

  lemma BoundKeyIs(canon: Canon, selected: Entry, keys: Keys, flags: Values, env: Env, yaml: Values, imposed: string)
    requires Wins(imposed, flags.controlURL, env.values.controlURL, yaml.controlURL, "", "")
    ensures BoundKey(canon, selected, keys, flags, env, yaml)
         == if selected.credential == "" then Some("")
            else if KeyIsUsable(canon, selected, keys, imposed) then Some(Get(keys, selected.credential).key)
            else None
  {
    SpaceAndSlashNameOnePlane(canon, imposed);
  }

  lemma ConnectIsMerge(canon: Canon, formats: Formats, yaml: Values, yamlKey: string, yamlRoutes: map<string, string>, env: Env,
                       flags: Values, flagKey: string, flagKeyFile: string, flagRoutes: seq<string>, selected: Entry, keys: Keys, profileKey: Option<string>)
    requires profileKey == if WantsManagedKey(flagKey, flagKeyFile, env) then BoundKey(canon, selected, keys, flags, env, yaml) else Some("")
    ensures Connected(canon, formats, yaml, yamlKey, yamlRoutes, env, flags, flagKey, flagKeyFile, flagRoutes, Some(selected), keys)
         == if profileKey == None then Refused
            else MergeOf(formats, Filled(yaml, selected), yamlKey, yamlRoutes, env, flags, flagKey, flagRoutes, profileKey.value)
  {}

  /** The managed key sent, "" for none, and None where it may not be. */
  function ManagedKey(canon: Canon, selected: Entry, keys: Keys, imposed: string, wanted: bool): Option<string> {
    if !wanted then Some("")
    else if KeyIsUsable(canon, selected, keys, imposed) then Some(Get(keys, selected.credential).key)
    else None
  }

  /** connect succeeds exactly when the profile is there, a managed key that is
      wanted may be used, no key is in YAML, each layer sets at most one mode and
      the settings that win can be run on; each setting comes from the flag, else
      the environment, else YAML, else the profile, else the default. */
  lemma ConnectExactly(canon: Canon, formats: Formats, yaml: Values, yamlKey: string, yamlRoutes: map<string, string>, env: Env,
                       flags: Values, flagKey: string, flagKeyFile: string, flagRoutes: seq<string>, selected: Entry, keys: Keys,
                       low: Values, imposed: string, managed: Option<string>, c: Chosen)
    requires LowestMode(low, yaml, selected) && ModeWins(c.target, c.socks5, flags, env.values, low)
    requires RawSettings(c.url, c.ssh, c.socks, flags, env.values, yaml, ProfileValues(selected))
    requires Wins(imposed, flags.controlURL, env.values.controlURL, yaml.controlURL, "", "")
    requires Wins(c.key, flagKey, env.authKey, "", if managed.Some? then managed.value else "", "")
    requires RoutesWin(c.routes, flagRoutes, yamlRoutes)
    requires managed == ManagedKey(canon, selected, keys, imposed, flagKey == "" && flagKeyFile == "" && env.authKey == "" && selected.credential != "")
    ensures var result := Connected(canon, formats, yaml, yamlKey, yamlRoutes, env, flags, flagKey, flagKeyFile, flagRoutes, Some(selected), keys);
            && (result.Ok? <==>
                  && managed.Some? && yamlKey == ""
                  && SetsOneMode(low) && SetsOneMode(env.values) && SetsOneMode(flags) && CanRun(formats, c))
            && (result.Ok? ==> MadeOf(result.config, c) && PlainSettings(result.config.values, flags, env.values, yaml, ProfileValues(selected)))
  {
    var filled := Filled(yaml, selected);
    FilledIsBelow(yaml, selected);
    BoundKeyIs(canon, selected, keys, flags, env, yaml, imposed);
    ConnectIsMerge(canon, formats, yaml, yamlKey, yamlRoutes, env, flags, flagKey, flagKeyFile, flagRoutes, selected, keys, managed);
    if managed.Some? {
      RawBelow(c.url, c.ssh, c.socks, flags, env.values, yaml, selected);
      MergeExactly(formats, filled, yamlKey, yamlRoutes, env, flags, flagKey, flagRoutes, managed.value, c);
      var merged := MergeOf(formats, filled, yamlKey, yamlRoutes, env, flags, flagKey, flagRoutes, managed.value);
      if merged.Ok? {
        PlainBelow(merged.config.values, flags, env.values, yaml, selected);
      }
    }
  }
}
