/** A poller's effective configuration: server defaults, overwritten by the namespace's,
    the target's and the poller's own settings.  Every field remembers where its value
    came from. */
module ConfigLayers {

  datatype Option<T> = None | Some(value: T) {
    function GetOr(default: T): T {
      if Some? then value else default
    }
  }

  // ----- stored configuration -----

  datatype ServerConfig = ServerConfig(timeoutMs: nat, retries: nat, intervalMs: nat, bufferSize: nat)

  /** Empty strings mean "not set". */
  datatype SNMPv3Defaults = SNMPv3Defaults(
    securityName: string, securityLevel: string,
    authProtocol: string, authPassword: string, authSecretRef: string,
    privProtocol: string, privPassword: string, privSecretRef: string)

  datatype PollerDefaults = PollerDefaults(
    community: Option<string>, v3: Option<SNMPv3Defaults>,
    intervalMs: Option<nat>, timeoutMs: Option<nat>, retries: Option<nat>, bufferSize: Option<nat>)

  datatype PollingConfig = PollingConfig(
    intervalMs: Option<nat>, timeoutMs: Option<nat>, retries: Option<nat>, bufferSize: Option<nat>)

  /** NamespaceConfig and TargetConfig. */
  datatype EntityConfig = EntityConfig(defaults: Option<PollerDefaults>)

  datatype Namespace = Namespace(name: string, config: Option<EntityConfig>)
  datatype Target = Target(name: string, config: Option<EntityConfig>)
  datatype Poller = Poller(name: string, polling: Option<PollingConfig>)

  // ----- what each layer sets -----

  datatype Setting<T> = Setting(value: T, source: string)

  datatype TextField =
    Community | SecurityName | SecurityLevel | AuthProtocol | AuthPassword | PrivProtocol | PrivPassword

  datatype NumberField = IntervalMs | TimeoutMs | Retries | BufferSize

  datatype Layer =
    | Server(server: ServerConfig)
    | Defaults(defaults: PollerDefaults, source: string)
    | Explicit(polling: PollingConfig)

  function Unless(unset: bool, s: Setting<string>): Option<Setting<string>> {
    if unset then None else Some(s)
  }

  /** A password, or else the reference of a secret. */
  function Secret(password: string, ref: string, source: string): Option<Setting<string>> {
    if password != "" then Some(Setting(password, source))
    else Unless(ref == "", Setting(ref, source + " (secret)"))
  }

  function V3SetBy(v: SNMPv3Defaults, f: TextField, source: string): Option<Setting<string>> {
    match f
    case Community => None
    case SecurityName => Unless(v.securityName == "", Setting(v.securityName, source))
    case SecurityLevel => Unless(v.securityLevel == "", Setting(v.securityLevel, source))
    case AuthProtocol => Unless(v.authProtocol == "", Setting(v.authProtocol, source))
    case AuthPassword => Secret(v.authPassword, v.authSecretRef, source)
    case PrivProtocol => Unless(v.privProtocol == "", Setting(v.privProtocol, source))
    case PrivPassword => Secret(v.privPassword, v.privSecretRef, source)
  }

  function TextSetBy(l: Layer, f: TextField): Option<Setting<string>> {
    match l
    case Server(_) => Unless(!f.Community?, Setting("public", "server"))
    case Explicit(_) => None
    case Defaults(d, source) =>
      if f.Community? then Unless(d.community.None?, Setting(d.community.GetOr(""), source))
      else if d.v3.None? then None
      else V3SetBy(d.v3.value, f, source)
  }

  function TimingSetBy(p: PollingConfig, f: NumberField, source: string): Option<Setting<nat>> {
    var given := match f
                 case IntervalMs => p.intervalMs
                 case TimeoutMs => p.timeoutMs
                 case Retries => p.retries
                 case BufferSize => p.bufferSize;
    if given.Some? then Some(Setting(given.value, source)) else None
  }

  function NumberSetBy(l: Layer, f: NumberField): Option<Setting<nat>> {
    match l
    case Server(c) =>
      TimingSetBy(PollingConfig(Some(c.intervalMs), Some(c.timeoutMs), Some(c.retries), Some(c.bufferSize)), f, "server")
    case Defaults(d, source) =>
      TimingSetBy(PollingConfig(d.intervalMs, d.timeoutMs, d.retries, d.bufferSize), f, source)
    case Explicit(p) => TimingSetBy(p, f, "explicit")
  }

  // ----- the result -----

  datatype Settings = Settings(
    community: Setting<string>, securityName: Setting<string>, securityLevel: Setting<string>,
    authProtocol: Setting<string>, authPassword: Setting<string>,
    privProtocol: Setting<string>, privPassword: Setting<string>,
    intervalMs: Setting<nat>, timeoutMs: Setting<nat>, retries: Setting<nat>, bufferSize: Setting<nat>)
  {
    function Text(f: TextField): Setting<string> {
      match f
      case Community => community
      case SecurityName => securityName
      case SecurityLevel => securityLevel
      case AuthProtocol => authProtocol
      case AuthPassword => authPassword
      case PrivProtocol => privProtocol
      case PrivPassword => privPassword
    }

    function Number(f: NumberField): Setting<nat> {
      match f
      case IntervalMs => intervalMs
      case TimeoutMs => timeoutMs
      case Retries => retries
      case BufferSize => bufferSize
    }

    /** Every field is what the innermost layer that sets it sets. */
    ghost predicate Reflect(layers: seq<Layer>) {
      (forall f :: TextIs(f, layers)) && (forall f :: NumberIs(f, layers))
    }

    ghost predicate TextIs(f: TextField, layers: seq<Layer>) {
      Innermost(Texts(layers, f), "", Text(f))
    }

    ghost predicate NumberIs(f: NumberField, layers: seq<Layer>) {
      Innermost(Numbers(layers, f), 0, Number(f))
    }
  }

  class ResolvedPollerConfig {
    var community: Setting<string>
    var securityName: Setting<string>
    var securityLevel: Setting<string>
    var authProtocol: Setting<string>
    var authPassword: Setting<string>
    var privProtocol: Setting<string>
    var privPassword: Setting<string>
    var intervalMs: Setting<nat>
    var timeoutMs: Setting<nat>
    var retries: Setting<nat>
    var bufferSize: Setting<nat>

    constructor ()
      ensures Shows([])
    {
      var t, n := Setting("", ""), Setting(0, "");
      community, securityName, securityLevel, authProtocol := t, t, t, t;
      authPassword, privProtocol, privPassword := t, t, t;
      intervalMs, timeoutMs, retries, bufferSize := n, n, n, n;
    }

    function Fields(): Settings
      reads this
    {
      Settings(community, securityName, securityLevel, authProtocol, authPassword, privProtocol, privPassword,
               intervalMs, timeoutMs, retries, bufferSize)
    }

    ghost predicate Shows(layers: seq<Layer>)
      reads this
    {
      Fields().Reflect(layers)
    }
  }

  /** s is what the last layer that sets the field sets; `unset` if none does. */
  ghost predicate Innermost<T>(offers: seq<Option<Setting<T>>>, unset: T, s: Setting<T>) {
    || (s == Setting(unset, "") && forall i | 0 <= i < |offers| :: offers[i].None?)
    || exists i :: 0 <= i < |offers| && offers[i] == Some(s) && SilentAfter(offers, i)
  }

  ghost predicate SilentAfter<T>(offers: seq<Option<Setting<T>>>, i: nat) {
    forall j | i < j < |offers| :: offers[j].None?
  }

  ghost function Texts(layers: seq<Layer>, f: TextField): seq<Option<Setting<string>>> {
    seq(|layers|, i requires 0 <= i < |layers| => TextSetBy(layers[i], f))
  }

  ghost function Numbers(layers: seq<Layer>, f: NumberField): seq<Option<Setting<nat>>> {
    seq(|layers|, i requires 0 <= i < |layers| => NumberSetBy(layers[i], f))
  }

  /** There is only one such setting, so the layers determine the whole result. */
  lemma InnermostIsUnique<T>(offers: seq<Option<Setting<T>>>, unset: T, s: Setting<T>, t: Setting<T>)
    requires Innermost(offers, unset, s) && Innermost(offers, unset, t)
    ensures s == t
  {
  }

  /** One more layer overwrites what it sets and leaves the rest. */
  lemma OneMore<T>(offers: seq<Option<Setting<T>>>, unset: T, s: Setting<T>, o: Option<Setting<T>>)
    requires Innermost(offers, unset, s)
    ensures Innermost(offers + [o], unset, if o.Some? then o.value else s)
  {
    var more := offers + [o];
    if o.Some? {
      assert more[|offers|] == o && SilentAfter(more, |offers|);
    } else if exists i :: 0 <= i < |offers| && offers[i] == Some(s) && SilentAfter(offers, i) {
      var i :| 0 <= i < |offers| && offers[i] == Some(s) && SilentAfter(offers, i);
      assert more[i] == Some(s) && SilentAfter(more, i);
    }
  }

  lemma Overwritten(was: Settings, now: Settings, layers: seq<Layer>, l: Layer)
    requires was.Reflect(layers)
    requires forall f :: now.Text(f) == Over(TextSetBy(l, f), was.Text(f))
    requires forall f :: now.Number(f) == Over(NumberSetBy(l, f), was.Number(f))
    ensures now.Reflect(layers + [l])
  {
    forall f ensures now.TextIs(f, layers + [l]) {
      assert was.TextIs(f, layers);
      OneMore(Texts(layers, f), "", was.Text(f), TextSetBy(l, f));
      assert Texts(layers + [l], f) == Texts(layers, f) + [TextSetBy(l, f)];
    }
    forall f ensures now.NumberIs(f, layers + [l]) {
      assert was.NumberIs(f, layers);
      OneMore(Numbers(layers, f), 0, was.Number(f), NumberSetBy(l, f));
      assert Numbers(layers + [l], f) == Numbers(layers, f) + [NumberSetBy(l, f)];
    }
  }

  /** The layers determine every field's value and source. */
  lemma LayersDetermine(a: Settings, b: Settings, layers: seq<Layer>)
    requires a.Reflect(layers) && b.Reflect(layers)
    ensures a == b
  {
    forall f ensures a.Text(f) == b.Text(f) {
      assert a.TextIs(f, layers) && b.TextIs(f, layers);
      InnermostIsUnique(Texts(layers, f), "", a.Text(f), b.Text(f));
    }
    forall f ensures a.Number(f) == b.Number(f) {
      assert a.NumberIs(f, layers) && b.NumberIs(f, layers);
      InnermostIsUnique(Numbers(layers, f), 0, a.Number(f), b.Number(f));
    }
    assert a.Text(Community) == b.Text(Community) && a.Text(SecurityName) == b.Text(SecurityName);
    assert a.Text(SecurityLevel) == b.Text(SecurityLevel) && a.Text(AuthProtocol) == b.Text(AuthProtocol);
    assert a.Text(AuthPassword) == b.Text(AuthPassword) && a.Text(PrivProtocol) == b.Text(PrivProtocol);
    assert a.Text(PrivPassword) == b.Text(PrivPassword);
    assert a.Number(IntervalMs) == b.Number(IntervalMs) && a.Number(TimeoutMs) == b.Number(TimeoutMs);
    assert a.Number(Retries) == b.Number(Retries) && a.Number(BufferSize) == b.Number(BufferSize);
  }

  function Over<T>(o: Option<Setting<T>>, s: Setting<T>): Setting<T> {
    if o.Some? then o.value else s
  }

  // ----- applying a layer -----

  method ApplyServerDefaults(result: ResolvedPollerConfig, cfg: ServerConfig, ghost layers: seq<Layer>)
    requires result.Shows(layers)
    modifies result
    ensures result.Shows(layers + [Server(cfg)])
  {
    result.intervalMs := Setting(cfg.intervalMs, "server");
    result.timeoutMs := Setting(cfg.timeoutMs, "server");
    result.retries := Setting(cfg.retries, "server");
    result.bufferSize := Setting(cfg.bufferSize, "server");
    result.community := Setting("public", "server");
    Overwritten(old(result.Fields()), result.Fields(), layers, Server(cfg));
  }

  method ApplyDefaults(result: ResolvedPollerConfig, d: PollerDefaults, source: string, ghost layers: seq<Layer>)
    requires result.Shows(layers)
    modifies result
    ensures result.Shows(layers + [Defaults(d, source)])
  {
    if d.community.Some? {
      result.community := Setting(d.community.value, source);
    }
    if d.v3.Some? {
      ApplyV3(result, d.v3.value, source);
    }
    ApplyTiming(result, PollingConfig(d.intervalMs, d.timeoutMs, d.retries, d.bufferSize), source);
    Overwritten(old(result.Fields()), result.Fields(), layers, Defaults(d, source));
  }

  method ApplyV3(result: ResolvedPollerConfig, v: SNMPv3Defaults, source: string)
    modifies result`securityName, result`securityLevel, result`authProtocol, result`authPassword
    modifies result`privProtocol, result`privPassword
    ensures result.securityName == Over(V3SetBy(v, SecurityName, source), old(result.securityName))
    ensures result.securityLevel == Over(V3SetBy(v, SecurityLevel, source), old(result.securityLevel))
    ensures result.authProtocol == Over(V3SetBy(v, AuthProtocol, source), old(result.authProtocol))
    ensures result.authPassword == Over(V3SetBy(v, AuthPassword, source), old(result.authPassword))
    ensures result.privProtocol == Over(V3SetBy(v, PrivProtocol, source), old(result.privProtocol))
    ensures result.privPassword == Over(V3SetBy(v, PrivPassword, source), old(result.privPassword))
  {
    if v.securityName != "" {
      result.securityName := Setting(v.securityName, source);
    }
    if v.securityLevel != "" {
      result.securityLevel := Setting(v.securityLevel, source);
    }
    if v.authProtocol != "" {
      result.authProtocol := Setting(v.authProtocol, source);
    }
    if v.privProtocol != "" {
      result.privProtocol := Setting(v.privProtocol, source);
    }
    ApplyPasswords(result, v, source);
  }

  /** A secret reference only counts where there is no password. */
  method ApplyPasswords(result: ResolvedPollerConfig, v: SNMPv3Defaults, source: string)
    modifies result`authPassword, result`privPassword
    ensures result.authPassword == Over(V3SetBy(v, AuthPassword, source), old(result.authPassword))
    ensures result.privPassword == Over(V3SetBy(v, PrivPassword, source), old(result.privPassword))
    ensures v.authPassword != "" ==> result.authPassword == Setting(v.authPassword, source)
    ensures v.authPassword == "" && v.authSecretRef != "" ==>
              result.authPassword == Setting(v.authSecretRef, source + " (secret)")
    ensures v.authPassword == "" && v.authSecretRef == "" ==> result.authPassword == old(result.authPassword)
    ensures v.privPassword != "" ==> result.privPassword == Setting(v.privPassword, source)
    ensures v.privPassword == "" && v.privSecretRef != "" ==>
              result.privPassword == Setting(v.privSecretRef, source + " (secret)")
    ensures v.privPassword == "" && v.privSecretRef == "" ==> result.privPassword == old(result.privPassword)
  {
    if v.authPassword != "" {
      result.authPassword := Setting(v.authPassword, source);
    } else if v.authSecretRef != "" {
      result.authPassword := Setting(v.authSecretRef, source + " (secret)");
    }
    if v.privPassword != "" {
      result.privPassword := Setting(v.privPassword, source);
    } else if v.privSecretRef != "" {
      result.privPassword := Setting(v.privSecretRef, source + " (secret)");
    }
  }

  method ApplyTiming(result: ResolvedPollerConfig, p: PollingConfig, source: string)
    modifies result`intervalMs, result`timeoutMs, result`retries, result`bufferSize
    ensures forall f :: result.Fields().Number(f) == Over(TimingSetBy(p, f, source), old(result.Fields().Number(f)))
  {
    if p.intervalMs.Some? {
      result.intervalMs := Setting(p.intervalMs.value, source);
    }
    if p.timeoutMs.Some? {
      result.timeoutMs := Setting(p.timeoutMs.value, source);
    }
    if p.retries.Some? {
      result.retries := Setting(p.retries.value, source);
    }
    if p.bufferSize.Some? {
      result.bufferSize := Setting(p.bufferSize.value, source);
    }
  }

  method ApplyPollingConfig(result: ResolvedPollerConfig, p: PollingConfig, ghost layers: seq<Layer>)
    requires result.Shows(layers)
    modifies result
    ensures result.Shows(layers + [Explicit(p)])
  {
    ApplyTiming(result, p, "explicit");
    Overwritten(old(result.Fields()), result.Fields(), layers, Explicit(p));
  }

  // ----- the whole resolution -----

  function ServerLayer(cfg: Option<ServerConfig>): seq<Layer> {
    if cfg.Some? then [Server(cfg.value)] else []
  }

  function DefaultsLayer(config: Option<EntityConfig>, source: string): seq<Layer> {
    if config.Some? && config.value.defaults.Some? then [Defaults(config.value.defaults.value, source)] else []
  }

  function PollerLayer(p: Option<Poller>): seq<Layer> {
    if p.Some? && p.value.polling.Some? then [Explicit(p.value.polling.value)] else []
  }

  function NamespaceLayer(ns: Option<Namespace>): seq<Layer> {
    if ns.None? then [] else DefaultsLayer(ns.value.config, "namespace:" + ns.value.name)
  }

  function TargetLayer(t: Option<Target>): seq<Layer> {
    if t.None? then [] else DefaultsLayer(t.value.config, "target:" + t.value.name)
  }

  function Layers(cfg: Option<ServerConfig>, ns: Option<Namespace>, t: Option<Target>, p: Option<Poller>): seq<Layer> {
    ServerLayer(cfg) + NamespaceLayer(ns) + TargetLayer(t) + PollerLayer(p)
  }

  method ResolveWithPoller(cfg: Option<ServerConfig>, ns: Option<Namespace>, t: Option<Target>, p: Option<Poller>)
    returns (result: ResolvedPollerConfig)
    ensures fresh(result) && result.Shows(Layers(cfg, ns, t, p))
  {
    result := new ResolvedPollerConfig();
    ghost var done: seq<Layer> := [];
    if cfg.Some? {
      ApplyServerDefaults(result, cfg.value, done);
      done := done + [Server(cfg.value)];
    }
    assert done == ServerLayer(cfg);
    if ns.Some? && ns.value.config.Some? && ns.value.config.value.defaults.Some? {
      ApplyDefaults(result, ns.value.config.value.defaults.value, "namespace:" + ns.value.name, done);
      done := done + NamespaceLayer(ns);
    }
    if t.Some? && t.value.config.Some? && t.value.config.value.defaults.Some? {
      ApplyDefaults(result, t.value.config.value.defaults.value, "target:" + t.value.name, done);
      done := done + TargetLayer(t);
    }
    if p.Some? && p.value.polling.Some? {
      ApplyPollingConfig(result, p.value.polling.value, done);
      done := done + PollerLayer(p);
    }
    assert done == Layers(cfg, ns, t, p);
  }
}
