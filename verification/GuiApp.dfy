/**
 The GUI around its configuration: the runtime status it shows for every listed node, kept in
 step with the list by each operation that changes it.
 */
module GuiApp {
  import opened Wrappers
  import opened Claims
  import opened ClaimRuns
  import opened GuiConfig

  /** The last check of a node, if there was one. */
  datatype NodeStatusInfo = NodeStatusInfo(connected: bool, lastCheck: Option<nat>, latencyMs: Option<nat>)

  const UNCHECKED := NodeStatusInfo(false, None, None)

  type Statuses = map<Addr, NodeStatusInfo>

  /** An unchecked status for every address that has none yet. */
  function WithUnchecked(status: Statuses, added: seq<Addr>): Statuses {
    map a | a in status.Keys + ToSet(added) :: if a in status then status[a] else UNCHECKED
  }

  /** What an operation that appended `added` and dropped `removed` leaves of the statuses. */
  function Synced(status: Statuses, added: seq<Addr>, removed: seq<Addr>): Statuses {
    WithUnchecked(status, added) - ToSet(removed)
  }

  function OrElse(carried: Option<string>, kept: string): string { if carried.Some? then carried.value else kept }

  class GuiApp {
    const config: GuiConfig
    var nodeStatus: Statuses

    /** A status for each listed node and for no other. */
    predicate Tracks()
      reads this, config`nodeAddrs
    {
      nodeStatus.Keys == ToSet(config.nodeAddrs)
    }

    constructor (config: GuiConfig)
      ensures this.config == config && Tracks()
    {
      this.config := config;
      nodeStatus := map a | a in ToSet(config.nodeAddrs) :: UNCHECKED;
    }

    /** Statuses follow the list: new nodes start unchecked, removed ones are forgotten. */
    method SyncStatuses(added: seq<Addr>, removed: seq<Addr>)
      modifies this`nodeStatus
      ensures nodeStatus == Synced(old(nodeStatus), added, removed)
    {
      for i := 0 to |added|
        invariant nodeStatus == WithUnchecked(old(nodeStatus), added[..i])
      {
        AddedOne(old(nodeStatus), added, i);
        if added[i] !in nodeStatus {
          nodeStatus := nodeStatus[added[i] := UNCHECKED];
        }
      }
      assert added[..|added|] == added;
      for i := 0 to |removed|
        invariant nodeStatus == WithUnchecked(old(nodeStatus), added) - ToSet(removed[..i])
      {
        assert removed[..i + 1] == removed[..i] + [removed[i]];
        ToSetOfSum(removed[..i], [removed[i]]);
        nodeStatus := nodeStatus - {removed[i]};
      }
      assert removed[..|removed|] == removed;
    }

    /** A subscription goes with the nodes that only it claims, and their statuses with them. */
    method DeleteSubscription(idx: nat)
      modifies this`nodeStatus, config`nodeAddrs, config`subs, config`names, config`certs
      ensures idx >= |old(config.subs)| ==> config.Value() == old(config.Value()) && nodeStatus == old(nodeStatus)
      ensures idx < |old(config.subs)| ==>
                && config.Value() == Deleted(old(config.Value()), idx)
                && nodeStatus == old(nodeStatus) - ToSet(Dropped(old(config.Value()), idx))
      ensures old(Tracks()) ==> Tracks()
    {
      ghost var before := config.Value();
      var removed := config.DeleteSubscription(idx);
      MinusIsDifference(before.nodeAddrs, ToSet(removed));
      SyncStatuses([], removed);
      NoneUnchecked(old(nodeStatus));
      NoneRemoved(old(nodeStatus));
    }

    /** The nodes a subscription fetched replace its old ones, if it is still there. */
    method ApplySubscriptionUpdate(name: string, links: seq<ShareLink>, now: nat)
      modifies this`nodeStatus, config`nodeAddrs, config`subs, config`names, config`certs
      ensures IndexOf(old(config.subs), name).None? ==>
                config.Value() == old(config.Value()) && nodeStatus == old(nodeStatus)
      ensures IndexOf(old(config.subs), name).Some? ==>
                var i, fetched := IndexOf(old(config.subs), name).value, Endpoints(links);
                && config.Value() == Updated(old(config.Value()), i, fetched, now)
                && nodeStatus == Synced(old(nodeStatus), Added(old(config.Value()), i, fetched),
                                        Removed(old(config.Value()), i, fetched))
      ensures old(Tracks()) ==> Tracks()
    {
      if IndexOf(config.subs, name).Some? {
        ghost var before, i := config.Value(), IndexOf(config.subs, name).value;
        var added, removed := config.ApplySubscriptionNodeUpdate(name, links, now);
        UpdateMovesKeys(before, i, Endpoints(links), now, nodeStatus);
        SyncStatuses(added, removed);
      }
    }

    method StoreCredentials(authKey: Option<string>, cert: Option<string>)
      modifies config`authKey, config`certDer
      ensures config.authKey == if authKey.Some? then authKey.value else old(config.authKey)
      ensures config.certDer == if cert.Some? then cert.value else old(config.certDer)
    {
      if authKey.Some? {
        config.authKey := authKey.value;
      }
      if cert.Some? {
        config.certDer := cert.value;
      }
    }

    /**
     An import that succeeds gives its new nodes a status and stores the credentials its links
     carry; one that fails changes nothing.
     */
    method ImportPaste(name: string, text: string, trim: string -> string, parse: string -> Parsed, now: nat)
      returns (r: Result<ImportResult, ImportError>)
      modifies this`nodeStatus, config
      ensures r.Err? <==> Refusal(old(config.Value()), trim(name), trim(text), parse(trim(text))).Some?
      ensures r.Err? ==> config.Value() == old(config.Value()) && nodeStatus == old(nodeStatus)
      ensures r.Ok? ==>
                var fetched := Endpoints(parse(trim(text)).links);
                && config.Value()
                   == Filled(old(config.Value()), trim(name), LOCAL_TEXT_SOURCE_PREFIX + trim(text), fetched, now)
                && nodeStatus == Synced(old(nodeStatus), Claimable(old(config.Value()), fetched), [])
      ensures r.Err? ==> config.authKey == old(config.authKey) && config.certDer == old(config.certDer)
      ensures r.Ok? ==>
                var links := parse(trim(text)).links;
                && config.authKey == OrElse(FirstCarried(links, KeyOf), old(config.authKey))
                && config.certDer == OrElse(FirstCarried(links, CertOf), old(config.certDer))
      ensures old(Tracks()) ==> Tracks()
    {
      ghost var before := config.Value();
      r := config.ImportShareLinksAsGroup(name, text, trim, parse, now);
      if r.Ok? {
        ImportMovesKeys(before, trim(name), LOCAL_TEXT_SOURCE_PREFIX + trim(text),
                        Endpoints(parse(trim(text)).links), now, nodeStatus);
        SyncStatuses(r.value.added, r.value.removed);
        StoreCredentials(r.value.authKey, r.value.cert);
      }
    }
  }

  lemma ImportMovesKeys(cfg: Config, name: string, source: string, fetched: seq<Addr>, now: nat, status: Statuses)
    requires !Taken(cfg.subs, name)
    ensures status.Keys == ToSet(cfg.nodeAddrs) ==>
              Synced(status, Claimable(cfg, fetched), []).Keys
              == ToSet(Filled(cfg, name, source, fetched, now).nodeAddrs)
  {
    FilledIs(cfg, name, source, fetched, now);
    ToSetOfSum(cfg.nodeAddrs, Claimable(cfg, fetched));
    assert ToSet([]) == {};
  }

  lemma AddedOne(status: Statuses, added: seq<Addr>, i: nat)
    requires i < |added|
    ensures WithUnchecked(status, added[..i + 1])
         == var before := WithUnchecked(status, added[..i]);
            if added[i] in before then before else before[added[i] := UNCHECKED]
  {
    assert added[..i + 1] == added[..i] + [added[i]];
    ToSetOfSum(added[..i], [added[i]]);
  }

  lemma NoneUnchecked(status: Statuses)
    ensures WithUnchecked(status, []) == status
  {
    assert ToSet([]) == {};
  }

  lemma NoneRemoved(status: Statuses)
    ensures status - ToSet([]) == status
  {
    assert ToSet([]) == {};
  }

  /** An update that appends and drops moves the tracked keys with the list. */
  lemma UpdateMovesKeys(cfg: Config, idx: nat, fetched: seq<Addr>, now: nat, status: Statuses)
    requires idx < |cfg.subs|
    ensures status.Keys == ToSet(cfg.nodeAddrs) ==>
              Synced(status, Added(cfg, idx, fetched), Removed(cfg, idx, fetched)).Keys
              == ToSet(Updated(cfg, idx, fetched, now).nodeAddrs)
  {
    var added, removed, kept := Added(cfg, idx, fetched), Removed(cfg, idx, fetched), Kept(cfg, idx, fetched);
    ToSetOfSum(kept, added);
    MinusIsDifference(cfg.nodeAddrs, ToSet(removed));
    MinusIsDifference(Dedup(fetched), ToSet(kept) + Others(cfg.subs, idx));
    MinusIsDifference(cfg.subs[idx].nodes, ToSet(fetched) + Manual(cfg) + Others(cfg.subs, idx));
    DedupIsSet(fetched);
  }

  /** Statuses of nodes that stay are kept as they are; a node that is new starts unconnected and unchecked. */
  lemma StatusesStay(status: Statuses, added: seq<Addr>, removed: seq<Addr>, a: Addr)
    requires a !in removed
    ensures var after := Synced(status, added, removed);
            && (a in status ==> a in after && after[a] == status[a])
            && (a in added && a !in status ==>
                  a in after && !after[a].connected && after[a].lastCheck.None? && after[a].latencyMs.None?)
  {
    assert a in ToSet(added) <==> a in added;
  }
}
