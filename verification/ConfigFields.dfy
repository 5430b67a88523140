/** What every field of a resolved configuration is, told from the stored fields: the
    poller's own, or else the target's, the namespace's, the server's. */
module ConfigFields {
  import opened ConfigLayers

  const NoV3: SNMPv3Defaults := SNMPv3Defaults("", "", "", "", "", "", "", "")
  const NoDefaults: PollerDefaults := PollerDefaults(None, None, None, None, None, None)

  /** What a target or a namespace has stored. */
  function Stored(config: Option<EntityConfig>): PollerDefaults {
    if config.Some? && config.value.defaults.Some? then config.value.defaults.value else NoDefaults
  }

  function V3(d: PollerDefaults): SNMPv3Defaults {
    d.v3.GetOr(NoV3)
  }

  /** The rows of a resolution: three of them can be missing, and so can what they store. */
  datatype Given = Given(cfg: Option<ServerConfig>, ns: Option<Namespace>, t: Option<Target>, p: Option<Poller>) {
    function OfPoller(): PollingConfig {
      if p.Some? && p.value.polling.Some? then p.value.polling.value else PollingConfig(None, None, None, None)
    }

    function OfTarget(): PollerDefaults {
      if t.Some? then Stored(t.value.config) else NoDefaults
    }

    function OfNamespace(): PollerDefaults {
      if ns.Some? then Stored(ns.value.config) else NoDefaults
    }

    function TargetSource(): string {
      if t.Some? then "target:" + t.value.name else ""
    }

    function NamespaceSource(): string {
      if ns.Some? then "namespace:" + ns.value.name else ""
    }
  }

  /** The value given, or else the rest. */
  function Or<T>(given: Option<T>, source: string, rest: Setting<T>): Setting<T> {
    if given.Some? then Setting(given.value, source) else rest
  }

  function OrText(given: string, source: string, rest: Setting<string>): Setting<string> {
    if given == "" then rest else Setting(given, source)
  }

  /** The reference of a secret counts where its layer has no password. */
  function OrSecret(password: string, ref: string, source: string, rest: Setting<string>): Setting<string> {
    OrText(password, source, OrText(ref, source + " (secret)", rest))
  }

  /** A number: the poller's, the target's, the namespace's, the server's. */
  function Number4(p: Option<nat>, t: Option<nat>, n: Option<nat>, c: Option<nat>, g: Given): Setting<nat> {
    Or(p, "explicit", Or(t, g.TargetSource(), Or(n, g.NamespaceSource(), Or(c, "server", Setting(0, "")))))
  }

  /** A text: the target's or the namespace's. */
  function Text2(t: string, n: string, g: Given): Setting<string> {
    OrText(t, g.TargetSource(), OrText(n, g.NamespaceSource(), Setting("", "")))
  }

  ghost predicate LayersOf(s: Settings, g: Given) {
    s.Reflect(Layers(g.cfg, g.ns, g.t, g.p))
  }

  // ----- one layer after the other -----

  lemma {:induction false} InnermostOf<T>(offers: seq<Option<Setting<T>>>, unset: T, s: Setting<T>)
    requires Innermost(offers, unset, s)
    ensures s == Last(offers, Setting(unset, ""))
    decreases |offers|
  {
    if offers != [] {
      var n := |offers| - 1;
      if offers[n].None? {
        if exists i :: 0 <= i < |offers| && offers[i] == Some(s) && SilentAfter(offers, i) {
          var i :| 0 <= i < |offers| && offers[i] == Some(s) && SilentAfter(offers, i);
          assert offers[..n][i] == Some(s) && SilentAfter(offers[..n], i);
        }
        InnermostOf(offers[..n], unset, s);
      }
    }
  }

  /** The last offer. */
  function Last<T>(offers: seq<Option<Setting<T>>>, unset: Setting<T>): Setting<T>
    decreases |offers|
  {
    if offers == [] then unset
    else if offers[|offers| - 1].Some? then offers[|offers| - 1].value
    else Last(offers[..|offers| - 1], unset)
  }

  lemma {:induction false} LastAppend<T>(a: seq<Option<Setting<T>>>, b: seq<Option<Setting<T>>>, unset: Setting<T>)
    ensures Last(a + b, unset) == Last(b, Last(a, unset))
    decreases |b|
  {
    if b == [] {
      assert a + b == a;
    } else {
      var n := |b| - 1;
      assert (a + b)[|a + b| - 1] == b[n] && (a + b)[..|a + b| - 1] == a + b[..n];
      LastAppend(a, b[..n], unset);
    }
  }

  lemma TextByLayers(s: Settings, f: TextField, a: seq<Layer>, b: seq<Layer>, c: seq<Layer>, d: seq<Layer>)
    requires s.TextIs(f, a + b + c + d)
    ensures s.Text(f) == Last(Texts(d, f), Last(Texts(c, f), Last(Texts(b, f), Last(Texts(a, f), Setting("", "")))))
  {
    InnermostOf(Texts(a + b + c + d, f), "", s.Text(f));
    assert Texts(a + b + c + d, f) == Texts(a, f) + Texts(b, f) + Texts(c, f) + Texts(d, f);
    LastAppend(Texts(a, f) + Texts(b, f) + Texts(c, f), Texts(d, f), Setting("", ""));
    LastAppend(Texts(a, f) + Texts(b, f), Texts(c, f), Setting("", ""));
    LastAppend(Texts(a, f), Texts(b, f), Setting("", ""));
  }

  lemma NumberByLayers(s: Settings, f: NumberField, a: seq<Layer>, b: seq<Layer>, c: seq<Layer>, d: seq<Layer>)
    requires s.NumberIs(f, a + b + c + d)
    ensures s.Number(f)
            == Last(Numbers(d, f), Last(Numbers(c, f), Last(Numbers(b, f), Last(Numbers(a, f), Setting(0, "")))))
  {
    InnermostOf(Numbers(a + b + c + d, f), 0, s.Number(f));
    assert Numbers(a + b + c + d, f) == Numbers(a, f) + Numbers(b, f) + Numbers(c, f) + Numbers(d, f);
    LastAppend(Numbers(a, f) + Numbers(b, f) + Numbers(c, f), Numbers(d, f), Setting(0, ""));
    LastAppend(Numbers(a, f) + Numbers(b, f), Numbers(c, f), Setting(0, ""));
    LastAppend(Numbers(a, f), Numbers(b, f), Setting(0, ""));
  }

  lemma OneOffer<T>(o: Option<Setting<T>>, unset: Setting<T>)
    ensures Last([o], unset) == (if o.Some? then o.value else unset) && Last([], unset) == unset
  {
    assert [o][..0] == [];
  }

  lemma OneText(l: Layer, f: TextField)
    ensures Texts([l], f) == [TextSetBy(l, f)] && Texts([], f) == []
  {
  }

  lemma OneNumber(l: Layer, f: NumberField)
    ensures Numbers([l], f) == [NumberSetBy(l, f)] && Numbers([], f) == []
  {
  }

  // ----- the fields -----

  lemma TextLayers(s: Settings, f: TextField, g: Given)
    requires LayersOf(s, g)
    ensures s.Text(f) == TextOver(TargetLayer(g.t), f, TextOver(NamespaceLayer(g.ns), f,
                                  TextOver(ServerLayer(g.cfg), f, Setting("", ""))))
  {
    var a, b, c, d := ServerLayer(g.cfg), NamespaceLayer(g.ns), TargetLayer(g.t), PollerLayer(g.p);
    assert s.TextIs(f, Layers(g.cfg, g.ns, g.t, g.p));
    TextByLayers(s, f, a, b, c, d);
    hide Last, Texts;
    OverIsLast(a, f, Setting("", ""));
    OverIsLast(b, f, Last(Texts(a, f), Setting("", "")));
    OverIsLast(c, f, Last(Texts(b, f), Last(Texts(a, f), Setting("", ""))));
    OverIsLast(d, f, Last(Texts(c, f), Last(Texts(b, f), Last(Texts(a, f), Setting("", "")))));
  }

  /** At most one layer, over the rest. */
  function TextOver(layer: seq<Layer>, f: TextField, rest: Setting<string>): Setting<string>
    requires |layer| <= 1
  {
    if layer == [] then rest else Over(TextSetBy(layer[0], f), rest)
  }

  lemma OverIsLast(layer: seq<Layer>, f: TextField, rest: Setting<string>)
    requires |layer| <= 1
    ensures Last(Texts(layer, f), rest) == TextOver(layer, f, rest)
  {
    OneOffer(if layer == [] then None else TextSetBy(layer[0], f), rest);
    if layer != [] {
      OneText(layer[0], f);
      assert layer == [layer[0]];
    }
  }

  function NumberOver(layer: seq<Layer>, f: NumberField, rest: Setting<nat>): Setting<nat>
    requires |layer| <= 1
  {
    if layer == [] then rest else Over(NumberSetBy(layer[0], f), rest)
  }

  lemma NumberOverIsLast(layer: seq<Layer>, f: NumberField, rest: Setting<nat>)
    requires |layer| <= 1
    ensures Last(Numbers(layer, f), rest) == NumberOver(layer, f, rest)
  {
    OneOffer(if layer == [] then None else NumberSetBy(layer[0], f), rest);
    if layer != [] {
      OneNumber(layer[0], f);
      assert layer == [layer[0]];
    }
  }

  lemma NumberLayers(s: Settings, f: NumberField, g: Given)
    requires LayersOf(s, g)
    ensures s.Number(f) == NumberOver(PollerLayer(g.p), f, NumberOver(TargetLayer(g.t), f,
                             NumberOver(NamespaceLayer(g.ns), f, NumberOver(ServerLayer(g.cfg), f, Setting(0, "")))))
  {
    var a, b, c, d := ServerLayer(g.cfg), NamespaceLayer(g.ns), TargetLayer(g.t), PollerLayer(g.p);
    assert s.NumberIs(f, Layers(g.cfg, g.ns, g.t, g.p));
    NumberByLayers(s, f, a, b, c, d);
    hide Last, Numbers;
    NumberOverIsLast(a, f, Setting(0, ""));
    NumberOverIsLast(b, f, Last(Numbers(a, f), Setting(0, "")));
    NumberOverIsLast(c, f, Last(Numbers(b, f), Last(Numbers(a, f), Setting(0, ""))));
    NumberOverIsLast(d, f, Last(Numbers(c, f), Last(Numbers(b, f), Last(Numbers(a, f), Setting(0, "")))));
  }

  /** The passwords: a layer's password, or else its secret's reference, of the innermost
      layer with either. */
  lemma PasswordsAre(s: Settings, g: Given)
    requires LayersOf(s, g)
    ensures var t, n := V3(g.OfTarget()), V3(g.OfNamespace());
            && s.authPassword == OrSecret(t.authPassword, t.authSecretRef, g.TargetSource(),
                 OrSecret(n.authPassword, n.authSecretRef, g.NamespaceSource(), Setting("", "")))
            && s.privPassword == OrSecret(t.privPassword, t.privSecretRef, g.TargetSource(),
                 OrSecret(n.privPassword, n.privSecretRef, g.NamespaceSource(), Setting("", "")))
  {
    TextLayers(s, AuthPassword, g);
    TextLayers(s, PrivPassword, g);
  }

  /** The other texts; only the community has a server default. */
  lemma TextsAre(s: Settings, g: Given)
    requires LayersOf(s, g)
    ensures var t, n := V3(g.OfTarget()), V3(g.OfNamespace());
            && s.securityName == Text2(t.securityName, n.securityName, g)
            && s.securityLevel == Text2(t.securityLevel, n.securityLevel, g)
            && s.authProtocol == Text2(t.authProtocol, n.authProtocol, g)
            && s.privProtocol == Text2(t.privProtocol, n.privProtocol, g)
  {
    TextLayers(s, SecurityName, g);
    TextLayers(s, SecurityLevel, g);
    TextLayers(s, AuthProtocol, g);
    TextLayers(s, PrivProtocol, g);
  }

  lemma CommunityIs(s: Settings, g: Given)
    requires LayersOf(s, g)
    ensures s.community == Or(g.OfTarget().community, g.TargetSource(),
                             Or(g.OfNamespace().community, g.NamespaceSource(),
                                if g.cfg.Some? then Setting("public", "server") else Setting("", "")))
  {
    TextLayers(s, Community, g);
  }

  function OfServer(cfg: Option<ServerConfig>): PollingConfig {
    if cfg.None? then PollingConfig(None, None, None, None)
    else
      PollingConfig(Some(cfg.value.intervalMs), Some(cfg.value.timeoutMs), Some(cfg.value.retries),
                    Some(cfg.value.bufferSize))
  }

  /** The numbers; zero may be given like any other. */
  lemma NumbersAre(s: Settings, g: Given)
    requires LayersOf(s, g)
    ensures var p, t, n, c := g.OfPoller(), g.OfTarget(), g.OfNamespace(), OfServer(g.cfg);
            && s.intervalMs == Number4(p.intervalMs, t.intervalMs, n.intervalMs, c.intervalMs, g)
            && s.timeoutMs == Number4(p.timeoutMs, t.timeoutMs, n.timeoutMs, c.timeoutMs, g)
            && s.retries == Number4(p.retries, t.retries, n.retries, c.retries, g)
            && s.bufferSize == Number4(p.bufferSize, t.bufferSize, n.bufferSize, c.bufferSize, g)
  {
    NumberLayers(s, IntervalMs, g);
    NumberLayers(s, TimeoutMs, g);
    NumberLayers(s, Retries, g);
    NumberLayers(s, BufferSize, g);
  }
}
