/** The configuration resolver: rows, resolution and the cache together. */
module ConfigResolving {
  import opened PollerKeys
  import opened ConfigLayers
  import C = ConfigCache

  // ----- the rows read -----

  datatype Table = ServerConfigTable | NamespaceTable | TargetTable | PollerTable

  /** What the store answers at one moment; the tables in `failing` answer with an error. */
  datatype Rows = Rows(
    server: Option<ServerConfig>,
    namespaces: map<string, Namespace>,
    targets: map<(string, string), Target>,
    pollers: map<PollerKey, Poller>,
    failing: set<Table>)

  function Find<K, V>(m: map<K, V>, k: K): Option<V> {
    if k in m then Some(m[k]) else None
  }

  /** A row is found under its own name. */
  ghost predicate NamesMatch(rows: Rows) {
    && (forall n | n in rows.namespaces :: rows.namespaces[n].name == n)
    && (forall n | n in rows.targets :: rows.targets[n].name == n.1)
  }

  /** What one Resolve meets: the rows at each of its four reads, in the program's order. */
  datatype Met = Met(server: Rows, namespace: Rows, target: Rows, poller: Rows)

  /** Some read fails; a missing server row is an error too. */
  predicate Fails(m: Met) {
    || ServerConfigTable in m.server.failing || m.server.server.None?
    || NamespaceTable in m.namespace.failing
    || TargetTable in m.target.failing
    || PollerTable in m.poller.failing
  }

  /** The layers that Resolve goes through: they are named by the key asked for. */
  function Asked(m: Met, k: PollerKey): seq<Layer> {
    ServerLayer(m.server.server)
    + DefaultsLayer(NamespaceConfig(Find(m.namespace.namespaces, k.ns)), "namespace:" + k.ns)
    + DefaultsLayer(TargetConfig(Find(m.target.targets, (k.ns, k.target))), "target:" + k.target)
    + PollerLayer(Find(m.poller.pollers, k))
  }

  /** `store` gives the rows at every moment. */
  function MetAt(store: int -> Rows, readAt: seq<int>): Met
    requires |readAt| == C.READS
  {
    Met(store(readAt[0]), store(readAt[1]), store(readAt[2]), store(readAt[3]))
  }

  function NamespaceConfig(ns: Option<Namespace>): Option<EntityConfig> {
    if ns.Some? then ns.value.config else None
  }

  function TargetConfig(t: Option<Target>): Option<EntityConfig> {
    if t.Some? then t.value.config else None
  }

  /** It fails exactly unless the server's row is there and no read meets an error; else it
      goes through the layers of the rows with the names asked for. */
  lemma AskedIsGiven(m: Met, k: PollerKey)
    requires NamesMatch(m.namespace) && NamesMatch(m.target)
    ensures !Fails(m) <==>
              && m.server.server.Some? && ServerConfigTable !in m.server.failing
              && NamespaceTable !in m.namespace.failing && TargetTable !in m.target.failing
              && PollerTable !in m.poller.failing
    ensures Asked(m, k) == Layers(m.server.server,
              if k.ns in m.namespace.namespaces then Some(m.namespace.namespaces[k.ns]) else None,
              if (k.ns, k.target) in m.target.targets then Some(m.target.targets[(k.ns, k.target)]) else None,
              if k in m.poller.pollers then Some(m.poller.pollers[k]) else None)
  {
  }

  /** The reads are in the program's order. */
  lemma MetInOrder(store: int -> Rows, readAt: seq<int>)
    requires |readAt| == 4
    ensures var m := MetAt(store, readAt);
            && m.server == store(readAt[0]) && m.namespace == store(readAt[1])
            && m.target == store(readAt[2]) && m.poller == store(readAt[3])
  {
  }

  /** A Resolve that misses gives what ResolveWithPoller gives for the rows it met. */
  lemma MissIsResolveWithPoller(m: Met, k: PollerKey, a: Settings, b: Settings)
    requires NamesMatch(m.namespace) && NamesMatch(m.target)
    requires a.Reflect(Asked(m, k))
    requires b.Reflect(Layers(m.server.server, Find(m.namespace.namespaces, k.ns),
                              Find(m.target.targets, (k.ns, k.target)), Find(m.poller.pollers, k)))
    ensures a == b
  {
    LayersDetermine(a, b, Asked(m, k));
  }

  // ----- the resolver -----

  datatype CacheEntry = CacheEntry(config: ResolvedPollerConfig, createdAt: int)

  datatype Answer = Answer(config: ResolvedPollerConfig) | StoreError

  class ConfigResolver {
    var cache: map<string, CacheEntry>
    ghost var configs: set<ResolvedPollerConfig> // every result ever stored

    /** The cache is that of s; every result reflects each row at the moment of its read. */
    ghost predicate Is(s: C.State, store: int -> Rows)
      reads this, configs
    {
      Caches(s.cache, store)
    }

    ghost predicate Caches(m: map<string, C.Entry>, store: int -> Rows)
      reads this, configs
    {
      && cache.Keys == m.Keys
      && forall key | key in cache :: EntryIs(key, m[key], store)
    }

    ghost predicate EntryIs(key: string, e: C.Entry, store: int -> Rows)
      requires key in cache
      reads this, configs
    {
      && cache[key].config in configs
      && cache[key].createdAt == e.createdAt
      && |e.readAt| == C.READS
      && cache[key].config.Shows(Asked(MetAt(store, e.readAt), e.asked))
    }

    constructor (store: int -> Rows)
      ensures Is(C.Empty, store)
    {
      cache, configs := map[], {};
    }

    /** The first part of Resolve: what the cache has. */
    method Lookup(k: PollerKey, now: int, ghost s: C.State, ghost store: int -> Rows)
      returns (found: Option<ResolvedPollerConfig>)
      requires Is(s, store)
      ensures found.Some? <==> C.Hit(s, k, now)
      ensures found.Some? ==>
                var e := s.cache[k.String()];
                |e.readAt| == C.READS && found.value.Shows(Asked(MetAt(store, e.readAt), e.asked))
    {
      var key := k.String();
      if key in cache {
        var entry := cache[key];
        assert EntryIs(key, s.cache[key], store);
        if now - entry.createdAt < C.CACHE_TTL {
          return Some(entry.config);
        }
      }
      return None;
    }

    /** The second: reading the rows, in the program's order, and merging. */
    method Read(k: PollerKey, m: Met) returns (r: Answer)
      ensures r.StoreError? <==> Fails(m)
      ensures r.Answer? ==> fresh(r.config) && r.config.Shows(Asked(m, k))
    {
      var result := new ResolvedPollerConfig();
      ghost var done: seq<Layer> := [];
      if ServerConfigTable in m.server.failing || m.server.server.None? {
        return StoreError;
      }
      ApplyServerDefaults(result, m.server.server.value, done);
      done := done + [Server(m.server.server.value)];
      if NamespaceTable in m.namespace.failing {
        return StoreError;
      }
      var ns := Find(m.namespace.namespaces, k.ns);
      done := ApplyEntity(result, NamespaceConfig(ns), "namespace:" + k.ns, done);
      if TargetTable in m.target.failing {
        return StoreError;
      }
      var t := Find(m.target.targets, (k.ns, k.target));
      done := ApplyEntity(result, TargetConfig(t), "target:" + k.target, done);
      if PollerTable in m.poller.failing {
        return StoreError;
      }
      var p := Find(m.poller.pollers, k);
      if p.Some? && p.value.polling.Some? {
        ApplyPollingConfig(result, p.value.polling.value, done);
        done := done + PollerLayer(p);
      }
      assert done == Asked(m, k);
      return Answer(result);
    }

    method ApplyEntity(result: ResolvedPollerConfig, config: Option<EntityConfig>, source: string,
                       ghost layers: seq<Layer>) returns (ghost done: seq<Layer>)
      requires result.Shows(layers)
      modifies result
      ensures done == layers + DefaultsLayer(config, source) && result.Shows(done)
    {
      done := layers;
      if config.Some? && config.value.defaults.Some? {
        ApplyDefaults(result, config.value.defaults.value, source, layers);
        done := layers + DefaultsLayer(config, source);
      }
    }

    /** The third: storing the result. */
    method Keep(k: PollerKey, config: ResolvedPollerConfig, at: int, ghost i: nat,
                ghost s: C.State, ghost store: int -> Rows)
      requires Is(s, store) && C.Enabled(s, C.Keep(i, at))
      requires s.flights[i].asked == k && config.Shows(Asked(MetAt(store, s.flights[i].readAt), k))
      modifies this
      ensures Is(C.Next(s, C.Keep(i, at)), store)
    {
      C.KeepStores(s, i, at);
      hide C.Next, C.Enabled, PollerKey.String, ResolvedPollerConfig.Shows, Asked, MetAt;
      ghost var t := C.Next(s, C.Keep(i, at));
      cache := cache[k.String() := CacheEntry(config, at)];
      configs := configs + {config};
      forall key | key in cache
        ensures EntryIs(key, t.cache[key], store)
      {
        if key != k.String() {
          assert old(EntryIs(key, s.cache[key], store));
        }
      }
    }

    /** A Resolve with no other call in between; the rows may change between its reads. */
    method Resolve(k: PollerKey, m: Met, now: int, later: int,
                   ghost readAt: seq<int>, ghost s: C.State, ghost store: int -> Rows)
      returns (r: Answer)
      requires |readAt| == C.READS && readAt[0] == now && C.InOrder(readAt, later)
      requires Is(s, store) && s.clock <= now && m == MetAt(store, readAt)
      modifies this
      ensures r.StoreError? <==> !C.Hit(s, k, now) && Fails(m)
      ensures C.Hit(s, k, now) ==>
                && Is(s, store)
                && var e := s.cache[k.String()];
                   |e.readAt| == C.READS && r.config.Shows(Asked(MetAt(store, e.readAt), e.asked))
      ensures !C.Hit(s, k, now) && Fails(m) ==> Is(s, store)
      ensures !C.Hit(s, k, now) && !Fails(m) ==>
                r.config.Shows(Asked(m, k)) && Is(C.Resolved(s, k, readAt, later), store)
    {
      var found := Lookup(k, now, s, store);
      if found.Some? {
        return Answer(found.value);
      }
      r := Read(k, m);
      if r.Answer? {
        ghost var f := C.Flight(k, readAt);
        ghost var t := s.(flights := s.flights + [f], clock := later);
        C.KeepStores(t, |s.flights|, later);
        hide C.Next, ConfigResolver.EntryIs, ResolvedPollerConfig.Shows, Asked;
        Keep(k, r.config, later, |s.flights|, t, store);
      }
    }

    method Invalidate(k: PollerKey, at: int, ghost s: C.State, ghost store: int -> Rows)
      requires Is(s, store) && s.clock <= at
      modifies this`cache
      ensures Is(C.Next(s, C.Invalidate(k, at)), store)
    {
      hide ConfigResolver.EntryIs;
      Delete(k.String(), s.cache, store);
      assert C.Next(s, C.Invalidate(k, at)).cache == s.cache - {k.String()};
    }

    /** sync.Map.Range: every key once, in any order. */
    method DropBeyond(prefix: string, ghost m: map<string, C.Entry>, ghost store: int -> Rows)
      requires Caches(m, store)
      modifies this`cache
      ensures Caches(map key | key in m && !C.Beyond(key, prefix) :: m[key], store)
    {
      hide ConfigResolver.EntryIs;
      var todo := cache.Keys;
      ghost var left := m;
      while todo != {}
        invariant todo <= cache.Keys && Caches(left, store)
        invariant left.Keys <= m.Keys && forall key | key in left :: left[key] == m[key]
        invariant forall key | key in m :: key in todo || (key in left <==> !C.Beyond(key, prefix))
        decreases |todo|
      {
        var key :| key in todo;
        todo := todo - {key};
        if |key| > |prefix| && key[..|prefix|] == prefix {
          Delete(key, left, store);
          left := left - {key};
        }
      }
      assert left == map key | key in m && !C.Beyond(key, prefix) :: m[key];
    }

    method Delete(key: string, ghost m: map<string, C.Entry>, ghost store: int -> Rows)
      requires Caches(m, store)
      modifies this`cache
      ensures cache == old(cache) - {key} && Caches(m - {key}, store)
    {
      hide ResolvedPollerConfig.Shows, Asked;
      cache := cache - {key};
      forall k | k in cache
        ensures EntryIs(k, m[k], store)
      {
        assert old(EntryIs(k, m[k], store));
      }
    }

    method InvalidateTarget(ns: string, target: string, at: int, ghost s: C.State, ghost store: int -> Rows)
      requires Is(s, store) && s.clock <= at
      modifies this`cache
      ensures Is(C.Swept(s, C.TargetPrefix(ns, target), at), store)
    {
      hide ConfigResolver.EntryIs;
      DropBeyond(ns + "/" + target + "/", s.cache, store);
    }

    method InvalidateNamespace(ns: string, at: int, ghost s: C.State, ghost store: int -> Rows)
      requires Is(s, store) && s.clock <= at
      modifies this`cache
      ensures Is(C.Swept(s, C.NamespacePrefix(ns), at), store)
    {
      hide ConfigResolver.EntryIs;
      DropBeyond(ns + "/", s.cache, store);
    }

    method InvalidateAll(at: int, ghost s: C.State, ghost store: int -> Rows)
      requires Is(s, store) && s.clock <= at
      modifies this`cache
      ensures Is(C.Next(s, C.InvalidateAll(at)), store)
    {
      hide ConfigResolver.EntryIs;
      cache := map[];
    }
  }
}
