/** The configuration store (internal/runtimecfg/store.go) and the reload branch
    of the daemon's event loop (cmd/failsafe-dns-proxy/main.go). */
module RuntimeConfig {
  import opened Wrappers
  import opened Health
  import opened Selection
  import opened Config
  import opened Failover
  import opened Sorting

  /** What was bound at the start and cannot change without a restart. */
  predicate Compatible(current: Config, next: Config) {
    && current.listenAddr == next.listenAddr && current.listenPort == next.listenPort
    && current.statusSocket == next.statusSocket
  }

  datatype ReloadProblem = ListenerChanged | StatusSocketChanged

  method ValidateReload(current: Config, next: Config) returns (problems: seq<ReloadProblem>)
    ensures problems == [] <==> Compatible(current, next)
    ensures ListenerChanged in problems <==>
              current.listenAddr != next.listenAddr || current.listenPort != next.listenPort
    ensures StatusSocketChanged in problems <==> current.statusSocket != next.statusSocket
  {
    problems := [];
    if current.listenAddr != next.listenAddr || current.listenPort != next.listenPort {
      problems := problems + [ListenerChanged];
    }
    if current.statusSocket != next.statusSocket {
      problems := problems + [StatusSocketChanged];
    }
  }

  /** A configuration with its manager. Its admission limit is part of Proxy. */
  class ConfigSnapshot {
    const config: Config
    const manager: Manager

    constructor (config: Config, manager: Manager)
      ensures this.config == config && this.manager == manager
    {
      this.config, this.manager := config, manager;
    }
  }

  class Store {
    var current: ConfigSnapshot
    var count: nat
    var lastAt: int
    var lastErr: string

    constructor (config: Config, manager: Manager)
      ensures current.config == config && current.manager == manager && fresh(current)
      ensures count == 0 && lastErr == ""
    {
      current := new ConfigSnapshot(config, manager);
      count, lastAt, lastErr := 0, 0, "";
    }

    method Update(config: Config, manager: Manager, now: int)
      modifies this
      ensures fresh(current) && current.config == config && current.manager == manager
      ensures count == old(count) + 1 && lastAt == now && lastErr == ""
    {
      current := new ConfigSnapshot(config, manager);
      count := count + 1;
      lastAt, lastErr := now, "";
    }

    method RecordReloadError(err: string, now: int)
      modifies this`lastAt, this`lastErr
      ensures lastAt == now && lastErr == err
    {
      lastAt, lastErr := now, err;
    }
  }

  /** One SIGHUP. `loaded` is what config.Load returned. A rejected file leaves
      the snapshot and the count alone; an accepted one installs a new manager
      whose entries are the new upstreams in priority order, each with the health
      of the same server in the old manager or a fresh one. The old manager is
      not touched, and the listener stays. */
  method Reload(store: Store, loaded: Option<Config>, now: int) returns (accepted: bool)
    modifies store
    ensures accepted <==> loaded.Some? && Compatible(old(store.current).config, loaded.value)
    ensures var was, now := old(store.current).config, store.current.config;
            now.listenAddr == was.listenAddr && now.listenPort == was.listenPort && now.statusSocket == was.statusSocket
    ensures !accepted ==> store.current == old(store.current) && store.count == old(store.count) && store.lastErr != ""
                          && store.lastAt == now
    ensures accepted ==>
              && fresh(store.current) && store.current.config == loaded.value && store.count == old(store.count) + 1
              && store.lastErr == "" && store.lastAt == now
    ensures accepted ==>
              var m, previous := store.current.manager, RowsOf(old(store.current).manager.entries);
              && fresh(m) && m.Valid() && m.Agreed() && m.logging && m.lines == []
              && m.failThreshold == loaded.value.failThreshold && m.recoverThreshold == loaded.value.recoverThreshold
              && ConfigsOf(m.entries) == SortStable(loaded.value.upstreams, PriorityLess)
              && forall i | 0 <= i < |m.entries| ::
                   m.entries[i].health == Inherited(previous, m.entries[i].config) && m.entries[i].attempts == 0
  {
    if loaded.None? {
      store.RecordReloadError("load failed", now);
      return false;
    }
    var next := loaded.value;
    var problems := ValidateReload(store.current.config, next);
    if problems != [] {
      store.RecordReloadError("restart required", now);
      return false;
    }
    var previous := store.current.manager.Snapshots();
    var manager := Manager.FromSnapshots(next.upstreams, next.failThreshold, next.recoverThreshold, true, previous);
    store.Update(next, manager, now);
    return true;
  }

  /** A reload of an accepted configuration with the same upstreams keeps every
      record and so the selection and its emergency flag. */
  lemma SameUpstreamsSameSelection(before: seq<Entry>, after: seq<Entry>, cfg: Config)
    requires WellFormed(cfg) && ConfigsOf(before) == cfg.upstreams
    requires ConfigsOf(after) == SortStable(cfg.upstreams, PriorityLess)
    requires forall i | 0 <= i < |after| :: after[i].health == Inherited(RowsOf(before), after[i].config)
    ensures Chosen(after) == Chosen(before) && Select(FlagsOf(after)) == Select(FlagsOf(before))
  {
    SortKeepsOrdered(cfg.upstreams, PriorityLess);
    UnchangedUpstreamsKeepSelection(before, after);
  }
}
