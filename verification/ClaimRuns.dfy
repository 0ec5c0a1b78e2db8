/**
 Importing, deleting and renaming over the same configuration, and what holds after any
 sequence of such operations.
 */
module ClaimRuns {
  import opened Wrappers
  import opened Claims

  // ---------------------------------------------------------------- importing

  function Pushed(cfg: Config, name: string, source: string): Config {
    cfg.(subs := cfg.subs + [Sub(name, source, None, [])])
  }

  function WithoutNamed(subs: seq<Sub>, name: string): seq<Sub> {
    if subs == [] then []
    else
      WithoutNamed(subs[..|subs| - 1], name)
      + if subs[|subs| - 1].name == name then [] else [subs[|subs| - 1]]
  }

  /** The new group filled like any subscription, before looking at what it could claim. */
  function Filled(cfg: Config, name: string, source: string, fetched: seq<Addr>, now: nat): Config {
    Updated(Pushed(cfg, name, source), |cfg.subs|, fetched, now)
  }

  /** What the group would claim: none of it may be manual or claimed already. */
  function Claimable(cfg: Config, fetched: seq<Addr>): seq<Addr> {
    Minus(Dedup(fetched), Manual(cfg) + Owned(cfg.subs))
  }

  /** A group that claimed nothing is taken back. */
  function Imported(cfg: Config, name: string, source: string, fetched: seq<Addr>, now: nat): Config {
    var filled := Filled(cfg, name, source, fetched, now);
    if filled.subs[|cfg.subs|].nodes == [] then filled.(subs := WithoutNamed(filled.subs, name)) else filled
  }

  lemma PushedOwnsTheSame(cfg: Config, name: string, source: string)
    ensures var pushed := Pushed(cfg, name, source);
            && Others(pushed.subs, |cfg.subs|) == Owned(cfg.subs) == Owned(pushed.subs)
            && Manual(pushed) == Manual(cfg)
  {
    var pushed := Pushed(cfg, name, source);
    assert forall i :: 0 <= i < |cfg.subs| ==> pushed.subs[i] == cfg.subs[i];
    OwnedIsAll(pushed.subs, |cfg.subs|);
  }

  lemma ClaimableIs(cfg: Config, fetched: seq<Addr>)
    ensures ToSet(Claimable(cfg, fetched)) == ToSet(fetched) - ToSet(cfg.nodeAddrs) - Owned(cfg.subs)
  {
    DedupIsSet(fetched);
    MinusIsDifference(Dedup(fetched), Manual(cfg) + Owned(cfg.subs));
  }

  /** Filling a new group only appends: the claimable addresses, in the order fetched. */
  lemma FilledIs(cfg: Config, name: string, source: string, fetched: seq<Addr>, now: nat)
    ensures Filled(cfg, name, source, fetched, now)
         == Config(cfg.nodeAddrs + Claimable(cfg, fetched),
                   cfg.subs + [Sub(name, source, Some(now), Claimable(cfg, fetched))],
                   cfg.names, cfg.certs)
  {
    var pushed := Pushed(cfg, name, source);
    PushedOwnsTheSame(cfg, name, source);
    NothingRemoved(pushed, |cfg.subs|, fetched);
    MinusAgrees(Dedup(fetched), ToSet(cfg.nodeAddrs) + Owned(cfg.subs), Manual(cfg) + Owned(cfg.subs));
    FilledPieces(cfg, name, source, fetched, now);
  }

  lemma FilledPieces(cfg: Config, name: string, source: string, fetched: seq<Addr>, now: nat)
    requires var pushed := Pushed(cfg, name, source);
             && Removed(pushed, |cfg.subs|, fetched) == [] && Kept(pushed, |cfg.subs|, fetched) == cfg.nodeAddrs
             && Added(pushed, |cfg.subs|, fetched) == Claimed(pushed, |cfg.subs|, fetched) == Claimable(cfg, fetched)
    ensures Filled(cfg, name, source, fetched, now)
         == Config(cfg.nodeAddrs + Claimable(cfg, fetched),
                   cfg.subs + [Sub(name, source, Some(now), Claimable(cfg, fetched))],
                   cfg.names, cfg.certs)
  {
    var pushed := Pushed(cfg, name, source);
    assert ToSet([]) == {};
    assert cfg.names - {} == cfg.names && cfg.certs - {} == cfg.certs;
    assert pushed.subs[|cfg.subs| := Sub(name, source, Some(now), Claimable(cfg, fetched))]
        == cfg.subs + [Sub(name, source, Some(now), Claimable(cfg, fetched))];
  }

  lemma {:induction false} WithoutNamedFresh(subs: seq<Sub>, name: string)
    requires forall s <- subs :: s.name != name
    ensures WithoutNamed(subs, name) == subs
  {
    if subs != [] {
      var init, last := subs[..|subs| - 1], subs[|subs| - 1];
      assert last in subs && subs == init + [last];
      assert forall s <- init :: s in subs;
      WithoutNamedFresh(init, name);
    }
  }

  /** An import either adds a group that claims something, or changes nothing at all. */
  lemma ImportIsAllOrNothing(cfg: Config, name: string, source: string, fetched: seq<Addr>, now: nat)
    requires forall s <- cfg.subs :: s.name != name
    ensures Claimable(cfg, fetched) == [] ==> Imported(cfg, name, source, fetched, now) == cfg
    ensures Claimable(cfg, fetched) != [] ==>
              Imported(cfg, name, source, fetched, now) == Filled(cfg, name, source, fetched, now)
  {
    FilledIs(cfg, name, source, fetched, now);
    if Claimable(cfg, fetched) == [] {
      var sub := Sub(name, source, Some(now), []);
      assert (cfg.subs + [sub])[..|cfg.subs|] == cfg.subs;
      WithoutNamedFresh(cfg.subs, name);
      assert cfg.nodeAddrs + [] == cfg.nodeAddrs;
    }
  }

  /** The import succeeds exactly when some fetched address is neither listed nor claimed. */
  lemma ImportSucceedsIff(cfg: Config, fetched: seq<Addr>)
    ensures Claimable(cfg, fetched) != [] <==> exists a :: a in fetched && a !in cfg.nodeAddrs && a !in Owned(cfg.subs)
  {
    ClaimableIs(cfg, fetched);
    if Claimable(cfg, fetched) != [] {
      var a := Claimable(cfg, fetched)[0];
      assert a in ToSet(Claimable(cfg, fetched));
      assert a in fetched && a !in cfg.nodeAddrs;
    }
    forall a | a in fetched && a !in cfg.nodeAddrs && a !in Owned(cfg.subs) ensures Claimable(cfg, fetched) != [] {
      assert a in ToSet(Claimable(cfg, fetched));
    }
  }

  // ----------------------------------------------------------------- deleting

  function Rest(subs: seq<Sub>, idx: nat): seq<Sub>
    requires idx < |subs|
  {
    subs[..idx] + subs[idx + 1..]
  }

  function Dropped(cfg: Config, idx: nat): seq<Addr>
    requires idx < |cfg.subs|
  {
    Minus(cfg.subs[idx].nodes, Owned(Rest(cfg.subs, idx)))
  }

  function Deleted(cfg: Config, idx: nat): Config
    requires idx < |cfg.subs|
  {
    var dropped := ToSet(Dropped(cfg, idx));
    Config(Minus(cfg.nodeAddrs, dropped), Rest(cfg.subs, idx), cfg.names - dropped, cfg.certs - dropped)
  }

  lemma RestOwns(subs: seq<Sub>, idx: nat)
    requires idx < |subs|
    ensures Owned(Rest(subs, idx)) == Others(subs, idx)
  {
    var rest := Rest(subs, idx);
    forall a | a in Others(subs, idx) ensures a in Owned(rest) {
      var i :| 0 <= i < |subs| && i != idx && a in subs[i].nodes;
      assert rest[if i < idx then i else i - 1] == subs[i];
    }
    forall a | a in Owned(rest) ensures a in Others(subs, idx) {
      var i :| 0 <= i < |rest| && a in rest[i].nodes;
      assert rest[i] == subs[if i < idx then i else i + 1];
    }
  }

  lemma DroppedIs(cfg: Config, idx: nat)
    requires idx < |cfg.subs|
    ensures ToSet(Dropped(cfg, idx)) == ToSet(cfg.subs[idx].nodes) - Others(cfg.subs, idx)
  {
    MinusIsDifference(cfg.subs[idx].nodes, Owned(Rest(cfg.subs, idx)));
    RestOwns(cfg.subs, idx);
  }

  /** Deleting a subscription removes the nodes only it claims, and no manual node. */
  lemma DeleteKeepsManual(cfg: Config, idx: nat)
    requires idx < |cfg.subs|
    ensures var after := Deleted(cfg, idx);
            && ToSet(after.nodeAddrs) == Manual(cfg) + ToSet(cfg.nodeAddrs) * Others(cfg.subs, idx)
            && Owned(after.subs) == Others(cfg.subs, idx)
            && Manual(after) == Manual(cfg)
  {
    DroppedIs(cfg, idx);
    RestOwns(cfg.subs, idx);
    OwnedIsAll(cfg.subs, idx);
    MinusIsDifference(cfg.nodeAddrs, ToSet(Dropped(cfg, idx)));
  }

  /**
   Deleting a group just imported restores the node list and the subscriptions as they were,
   in order. The whole configuration is restored exactly when none of the addresses it had
   added carried a leftover name or certificate.
   */
  lemma ImportThenDelete(cfg: Config, name: string, source: string, fetched: seq<Addr>, now: nat)
    ensures var back := Deleted(Filled(cfg, name, source, fetched, now), |cfg.subs|);
            && back.nodeAddrs == cfg.nodeAddrs && back.subs == cfg.subs
            && (back == cfg <==> forall a :: a in Claimable(cfg, fetched) ==> a !in cfg.names && a !in cfg.certs)
  {
    var filled := Filled(cfg, name, source, fetched, now);
    var claims := Claimable(cfg, fetched);
    FilledIs(cfg, name, source, fetched, now);
    ClaimableIs(cfg, fetched);
    assert forall a <- claims :: a in ToSet(claims);
    assert Rest(filled.subs, |cfg.subs|) == cfg.subs;
    MinusNothing(claims, Owned(cfg.subs));
    MinusSplit(cfg.nodeAddrs, claims, ToSet(claims));
    MinusAll(claims, ToSet(claims));
    assert forall a <- cfg.nodeAddrs :: a in ToSet(cfg.nodeAddrs);
    MinusNothing(cfg.nodeAddrs, ToSet(claims));
    RemovesNothingIff(cfg.names, claims);
    RemovesNothingIff(cfg.certs, claims);
  }

  lemma RemovesNothingIff(m: map<Addr, string>, keys: seq<Addr>)
    ensures m - ToSet(keys) == m <==> forall a <- keys :: a !in m
  {
    if m - ToSet(keys) == m {
      forall a <- keys ensures a !in m {
        assert a in ToSet(keys);
        assert a !in m - ToSet(keys);
      }
    }
  }

  // ---------------------------------------------------- how many would be removed

  function NamedOthers(subs: seq<Sub>, name: string): set<Addr> {
    set i, a | 0 <= i < |subs| && subs[i].name != name && a in subs[i].nodes :: a
  }

  /** The number shown in the confirmation before a subscription is deleted. */
  function ExclusiveCount(cfg: Config, name: string): nat {
    match IndexOf(cfg.subs, name)
    case None => 0
    case Some(i) => |Minus(cfg.subs[i].nodes, NamedOthers(cfg.subs, name))|
  }

  ghost predicate UniqueNames(subs: seq<Sub>) {
    forall i, j :: 0 <= i < j < |subs| ==> subs[i].name != subs[j].name
  }

  lemma {:induction false} DroppingMoreKeepsFewer(s: seq<Addr>, few: set<Addr>, many: set<Addr>)
    requires few <= many
    ensures |Minus(s, many)| <= |Minus(s, few)|
    ensures |Minus(s, many)| == |Minus(s, few)| <==> forall a <- s :: a in many ==> a in few
  {
    if s != [] {
      DroppingMoreKeepsFewer(s[..|s| - 1], few, many);
      assert s == s[..|s| - 1] + [s[|s| - 1]];
    }
  }

  lemma NamedOthersAreOthers(subs: seq<Sub>, idx: nat)
    requires idx < |subs|
    ensures NamedOthers(subs, subs[idx].name) <= Others(subs, idx)
  {
  }

  /**
   The number announced counts by name, the deletion goes by position. For the first
   subscription of a name they agree exactly when every claim of it that another one shares
   is also shared by one of another name; otherwise too many are announced.
   */
  lemma AnnouncedExactly(cfg: Config, idx: nat)
    requires idx < |cfg.subs| && IndexOf(cfg.subs, cfg.subs[idx].name) == Some(idx)
    ensures var name, nodes := cfg.subs[idx].name, cfg.subs[idx].nodes;
            && ExclusiveCount(cfg, name) >= |Dropped(cfg, idx)|
            && (ExclusiveCount(cfg, name) == |Dropped(cfg, idx)|
                <==> forall a <- nodes :: a in Others(cfg.subs, idx) ==> a in NamedOthers(cfg.subs, name))
  {
    RestOwns(cfg.subs, idx);
    NamedOthersAreOthers(cfg.subs, idx);
    DroppingMoreKeepsFewer(cfg.subs[idx].nodes, NamedOthers(cfg.subs, cfg.subs[idx].name), Others(cfg.subs, idx));
  }

  /** With unique names the number announced is the number of claims the deletion drops. */
  lemma AnnouncedIsDropped(cfg: Config, idx: nat)
    requires idx < |cfg.subs| && UniqueNames(cfg.subs)
    ensures ExclusiveCount(cfg, cfg.subs[idx].name) == |Dropped(cfg, idx)|
  {
    assert IndexOf(cfg.subs, cfg.subs[idx].name) == Some(idx) by {
      assert cfg.subs[idx] in cfg.subs;
    }
    AnnouncedExactly(cfg, idx);
    forall a | a in Others(cfg.subs, idx) ensures a in NamedOthers(cfg.subs, cfg.subs[idx].name) {
      var i :| 0 <= i < |cfg.subs| && i != idx && a in cfg.subs[i].nodes;
      assert cfg.subs[i].name != cfg.subs[idx].name;
    }
  }

  // --------------------------------------------------------------------- runs

  datatype Op =
    | Add(name: string, source: string)
    | Update(name: string, fetched: seq<Addr>, now: nat)
    | Import(name: string, source: string, fetched: seq<Addr>, now: nat)
    | Delete(idx: nat)

  predicate Taken(subs: seq<Sub>, name: string) { IndexOf(subs, name).Some? }

  function Apply(cfg: Config, op: Op): Config {
    match op
    case Add(name, source) => if Taken(cfg.subs, name) then cfg else Pushed(cfg, name, source)
    case Update(name, fetched, now) =>
      (match IndexOf(cfg.subs, name)
       case None => cfg
       case Some(i) => Updated(cfg, i, fetched, now))
    case Import(name, source, fetched, now) =>
      if Taken(cfg.subs, name) then cfg else Imported(cfg, name, source, fetched, now)
    case Delete(idx) => if idx < |cfg.subs| then Deleted(cfg, idx) else cfg
  }

  function Run(cfg: Config, ops: seq<Op>): Config {
    if ops == [] then cfg else Apply(Run(cfg, ops[..|ops| - 1]), ops[|ops| - 1])
  }

  lemma StepKeepsManual(cfg: Config, op: Op)
    ensures Manual(Apply(cfg, op)) == Manual(cfg)
  {
    match op
    case Add(name, source) => PushedOwnsTheSame(cfg, name, source);
    case Update(name, fetched, now) =>
      if IndexOf(cfg.subs, name).Some? {
        UpdateKeepsManual(cfg, IndexOf(cfg.subs, name).value, fetched, now);
      }
    case Import(name, source, fetched, now) =>
      if !Taken(cfg.subs, name) {
        ImportIsAllOrNothing(cfg, name, source, fetched, now);
        PushedOwnsTheSame(cfg, name, source);
        UpdateKeepsManual(Pushed(cfg, name, source), |cfg.subs|, fetched, now);
      }
    case Delete(idx) =>
      if idx < |cfg.subs| {
        DeleteKeepsManual(cfg, idx);
      }
  }

  /** Nothing that subscriptions do ever takes a manual node, or makes one. */
  lemma {:induction false} ManualForever(cfg: Config, ops: seq<Op>)
    ensures Manual(Run(cfg, ops)) == Manual(cfg)
  {
    if ops != [] {
      ManualForever(cfg, ops[..|ops| - 1]);
      StepKeepsManual(Run(cfg, ops[..|ops| - 1]), ops[|ops| - 1]);
    }
  }

  /** No address has two owners, no owner lists it twice, and names tell subscriptions apart. */
  ghost predicate Healthy(cfg: Config) {
    && UniqueNames(cfg.subs)
    && (forall i :: 0 <= i < |cfg.subs| ==> Distinct(cfg.subs[i].nodes))
    && (forall i, j :: 0 <= i < j < |cfg.subs| ==> Apart(cfg.subs[i], cfg.subs[j]))
  }

  ghost predicate Apart(s: Sub, t: Sub) {
    forall a :: a in s.nodes ==> a !in t.nodes
  }

  lemma UpdateKeepsHealthy(cfg: Config, idx: nat, fetched: seq<Addr>, now: nat)
    requires Healthy(cfg) && idx < |cfg.subs|
    ensures Healthy(Updated(cfg, idx, fetched, now))
  {
    var after := Updated(cfg, idx, fetched, now);
    ClaimedIs(cfg, idx, fetched);
    var claimed := Claimed(cfg, idx, fetched);
    forall i | 0 <= i < |cfg.subs| && i != idx
      ensures Apart(after.subs[i], after.subs[idx]) && Apart(after.subs[idx], after.subs[i])
    {
      forall a | a in claimed ensures a !in cfg.subs[i].nodes {
        assert a in ToSet(claimed);
      }
    }
  }

  lemma AddKeepsHealthy(cfg: Config, name: string, source: string)
    requires Healthy(cfg) && !Taken(cfg.subs, name)
    ensures Healthy(Pushed(cfg, name, source))
  {
  }

  lemma DeleteKeepsHealthy(cfg: Config, idx: nat)
    requires Healthy(cfg) && idx < |cfg.subs|
    ensures Healthy(Deleted(cfg, idx))
  {
    RestIsPart(cfg.subs, idx);
    var rest := Rest(cfg.subs, idx);
    forall i, j | 0 <= i < j < |rest| ensures rest[i].name != rest[j].name && Apart(rest[i], rest[j]) {
      var s, t := if i < idx then i else i + 1, if j < idx then j else j + 1;
      assert rest[i] == cfg.subs[s] && rest[j] == cfg.subs[t];
    }
  }

  lemma RestIsPart(subs: seq<Sub>, idx: nat)
    requires idx < |subs|
    ensures forall i :: 0 <= i < |Rest(subs, idx)| ==> Rest(subs, idx)[i] == subs[if i < idx then i else i + 1]
  {
  }

  lemma StepKeepsHealthy(cfg: Config, op: Op)
    requires Healthy(cfg)
    ensures Healthy(Apply(cfg, op))
  {
    match op
    case Add(name, source) =>
      if !Taken(cfg.subs, name) {
        AddKeepsHealthy(cfg, name, source);
      }
    case Update(name, fetched, now) =>
      if IndexOf(cfg.subs, name).Some? {
        UpdateKeepsHealthy(cfg, IndexOf(cfg.subs, name).value, fetched, now);
      }
    case Import(name, source, fetched, now) =>
      if !Taken(cfg.subs, name) {
        ImportIsAllOrNothing(cfg, name, source, fetched, now);
        AddKeepsHealthy(cfg, name, source);
        UpdateKeepsHealthy(Pushed(cfg, name, source), |cfg.subs|, fetched, now);
      }
    case Delete(idx) =>
      if idx < |cfg.subs| {
        DeleteKeepsHealthy(cfg, idx);
      }
  }

  /**
   From any healthy configuration every address keeps at most one owner, whatever is done, and
   the number announced before a deletion is right.
   */
  lemma {:induction false} OneOwnerForever(cfg: Config, ops: seq<Op>)
    requires Healthy(cfg)
    ensures Healthy(Run(cfg, ops))
    ensures var after := Run(cfg, ops);
            forall i :: 0 <= i < |after.subs| ==> ExclusiveCount(after, after.subs[i].name) == |Dropped(after, i)|
  {
    if ops != [] {
      OneOwnerForever(cfg, ops[..|ops| - 1]);
      StepKeepsHealthy(Run(cfg, ops[..|ops| - 1]), ops[|ops| - 1]);
    }
    var after := Run(cfg, ops);
    forall i | 0 <= i < |after.subs| ensures ExclusiveCount(after, after.subs[i].name) == |Dropped(after, i)| {
      AnnouncedIsDropped(after, i);
    }
  }

  // ------------------------------------------------------- taking a node over by hand

  function FirstIndex(s: seq<Addr>, a: Addr): (i: nat)
    requires a in s
    ensures i < |s| && s[i] == a && a !in s[..i]
  {
    if s[0] == a then 0 else assert a in s[1..]; 1 + FirstIndex(s[1..], a)
  }

  function WithoutFirst(s: seq<Addr>, a: Addr): seq<Addr>
    requires a in s
  {
    s[..FirstIndex(s, a)] + s[FirstIndex(s, a) + 1..]
  }

  /** The claim of the first subscription that has the address is given up. */
  function Released(subs: seq<Sub>, a: Addr): seq<Sub> {
    if subs == [] then []
    else if a in subs[0].nodes then [subs[0].(nodes := WithoutFirst(subs[0].nodes, a))] + subs[1..]
    else [subs[0]] + Released(subs[1..], a)
  }

  lemma {:induction false} ReleasedAt(subs: seq<Sub>, a: Addr, k: nat)
    requires k < |subs| && a in subs[k].nodes && forall i :: 0 <= i < k ==> a !in subs[i].nodes
    ensures Released(subs, a) == subs[k := subs[k].(nodes := WithoutFirst(subs[k].nodes, a))]
    decreases |subs|
  {
    if k > 0 {
      ReleasedAt(subs[1..], a, k - 1);
    }
  }

  lemma WithoutFirstDrops(s: seq<Addr>, a: Addr)
    requires a in s && Distinct(s)
    ensures ToSet(WithoutFirst(s, a)) == ToSet(s) - {a} && Distinct(WithoutFirst(s, a))
  {
    var i := FirstIndex(s, a);
    assert s == s[..i] + [a] + s[i + 1..];
    ToSetOfSum(s[..i], s[i + 1..]);
    ToSetOfSum(s[..i] + [a], s[i + 1..]);
    ToSetOfSum(s[..i], [a]);
    assert a !in s[i + 1..];
    assert a !in ToSet(s[..i]) && a !in ToSet(s[i + 1..]);
  }

  /** With one owner per address, releasing a node takes nothing else from anyone. */
  lemma ReleasedOwners(cfg: Config, a: Addr)
    requires Healthy(cfg) && a in Owned(cfg.subs)
    ensures Owned(Released(cfg.subs, a)) == Owned(cfg.subs) - {a}
  {
    var k :| 0 <= k < |cfg.subs| && a in cfg.subs[k].nodes;
    forall i | 0 <= i < |cfg.subs| && i != k ensures a !in cfg.subs[i].nodes {
      assert if i < k then Apart(cfg.subs[i], cfg.subs[k]) else Apart(cfg.subs[k], cfg.subs[i]);
    }
    var after := Released(cfg.subs, a);
    ReleasedAt(cfg.subs, a, k);
    WithoutFirstDrops(cfg.subs[k].nodes, a);
    OwnedIsAll(cfg.subs, k);
    OwnedIsAll(after, k);
    OthersIgnoreOwn(cfg.subs, k, after[k]);
    assert a !in Others(cfg.subs, k);
  }

  /**
   With one owner per address, releasing a listed node makes it manual, takes nothing else
   from anyone, and from then on it stays, unclaimed, whatever the subscriptions do.
   */
  lemma ReleasedStays(cfg: Config, a: Addr, ops: seq<Op>)
    requires Healthy(cfg) && a in cfg.nodeAddrs && a in Owned(cfg.subs)
    ensures var after := cfg.(subs := Released(cfg.subs, a));
            && Owned(after.subs) == Owned(cfg.subs) - {a}
            && Manual(after) == Manual(cfg) + {a}
            && a in Run(after, ops).nodeAddrs && a !in Owned(Run(after, ops).subs)
  {
    var after := cfg.(subs := Released(cfg.subs, a));
    ReleasedOwners(cfg, a);
    ManualForever(after, ops);
    assert a in Manual(Run(after, ops));
  }
}
