/**
 Ownership of node addresses: the node list, the claims of each subscription on it, and what
 updating, importing and deleting a subscription do to them.
 */
module Claims {
  import opened Wrappers

  type Addr = string

  datatype Sub = Sub(name: string, source: string, lastUpdated: Option<nat>, nodes: seq<Addr>)

  datatype Config = Config(nodeAddrs: seq<Addr>, subs: seq<Sub>, names: map<Addr, string>, certs: map<Addr, string>)

  // ------------------------------------------------------------ address lists

  function ToSet(s: seq<Addr>): set<Addr> { set a | a in s }

  /** The list without the addresses of a set, in order. */
  function Minus(s: seq<Addr>, drop: set<Addr>): seq<Addr> {
    if s == [] then []
    else Minus(s[..|s| - 1], drop) + if s[|s| - 1] in drop then [] else [s[|s| - 1]]
  }

  /** First occurrences only, in order. */
  function Dedup(s: seq<Addr>): seq<Addr> {
    if s == [] then []
    else
      var d := Dedup(s[..|s| - 1]);
      if s[|s| - 1] in d then d else d + [s[|s| - 1]]
  }

  predicate Distinct(s: seq<Addr>) {
    forall i, j :: 0 <= i < j < |s| ==> s[i] != s[j]
  }

  lemma ToSetOfSum(s: seq<Addr>, t: seq<Addr>)
    ensures ToSet(s + t) == ToSet(s) + ToSet(t)
  {
  }

  lemma ToSetOfLast(s: seq<Addr>)
    requires s != []
    ensures ToSet(s) == ToSet(s[..|s| - 1]) + {s[|s| - 1]}
  {
    assert s == s[..|s| - 1] + [s[|s| - 1]];
  }

  lemma {:induction false} MinusIsDifference(s: seq<Addr>, drop: set<Addr>)
    ensures ToSet(Minus(s, drop)) == ToSet(s) - drop
  {
    if s != [] {
      MinusIsDifference(s[..|s| - 1], drop);
      ToSetOfLast(s);
      ToSetOfSum(Minus(s[..|s| - 1], drop), [s[|s| - 1]]);
      ToSetOfSum(Minus(s[..|s| - 1], drop), []);
    }
  }

  lemma {:induction false} DedupIsSet(s: seq<Addr>)
    ensures ToSet(Dedup(s)) == ToSet(s) && Distinct(Dedup(s))
  {
    if s != [] {
      var last, d := s[|s| - 1], Dedup(s[..|s| - 1]);
      DedupIsSet(s[..|s| - 1]);
      ToSetOfLast(s);
      ToSetOfSum(d, [last]);
      assert last in d <==> last in ToSet(d);
    }
  }

  lemma MinusIsPart(s: seq<Addr>, drop: set<Addr>, a: Addr)
    ensures a in Minus(s, drop) <==> a in s && a !in drop
  {
    MinusIsDifference(s, drop);
    assert a in ToSet(Minus(s, drop)) <==> a in ToSet(s) - drop;
  }

  lemma {:induction false} MinusKeepsDistinct(s: seq<Addr>, drop: set<Addr>)
    requires Distinct(s)
    ensures Distinct(Minus(s, drop))
  {
    if s != [] {
      MinusKeepsDistinct(s[..|s| - 1], drop);
      MinusIsPart(s[..|s| - 1], drop, s[|s| - 1]);
    }
  }

  /** Dropping two sets that agree on the list is the same. */
  lemma {:induction false} MinusAgrees(s: seq<Addr>, x: set<Addr>, y: set<Addr>)
    requires forall a <- s :: a in x <==> a in y
    ensures Minus(s, x) == Minus(s, y)
  {
    if s != [] {
      MinusAgrees(s[..|s| - 1], x, y);
    }
  }

  lemma {:induction false} MinusNothing(s: seq<Addr>, drop: set<Addr>)
    requires forall a <- s :: a !in drop
    ensures Minus(s, drop) == s
  {
    if s != [] {
      MinusNothing(s[..|s| - 1], drop);
    }
  }

  lemma {:induction false} MinusAll(s: seq<Addr>, drop: set<Addr>)
    requires forall a <- s :: a in drop
    ensures Minus(s, drop) == []
  {
    if s != [] {
      MinusAll(s[..|s| - 1], drop);
    }
  }

  lemma {:induction false} MinusSplit(s: seq<Addr>, t: seq<Addr>, drop: set<Addr>)
    ensures Minus(s + t, drop) == Minus(s, drop) + Minus(t, drop)
  {
    if t == [] {
      assert s + t == s;
    } else {
      assert (s + t)[..|s + t| - 1] == s + t[..|t| - 1];
      MinusSplit(s, t[..|t| - 1], drop);
    }
  }

  // ---------------------------------------------------------------- ownership

  function Owned(subs: seq<Sub>): set<Addr> {
    set i, a | 0 <= i < |subs| && a in subs[i].nodes :: a
  }

  /** What subscriptions other than the one at `idx` claim. */
  function Others(subs: seq<Sub>, idx: nat): set<Addr> {
    set i, a | 0 <= i < |subs| && i != idx && a in subs[i].nodes :: a
  }

  /** Nodes that no subscription claims. */
  function Manual(cfg: Config): set<Addr> { ToSet(cfg.nodeAddrs) - Owned(cfg.subs) }

  lemma OwnedIsAll(subs: seq<Sub>, idx: nat)
    requires idx < |subs|
    ensures Owned(subs) == Others(subs, idx) + ToSet(subs[idx].nodes)
  {
  }

  lemma OthersIgnoreOwn(subs: seq<Sub>, idx: nat, sub: Sub)
    requires idx < |subs|
    ensures Others(subs[idx := sub], idx) == Others(subs, idx)
  {
    assert forall i :: 0 <= i < |subs| && i != idx ==> subs[idx := sub][i] == subs[i];
  }

  /** The first subscription of a name. */
  function IndexOf(subs: seq<Sub>, name: string): (r: Option<nat>)
    ensures r.Some? ==> r.value < |subs| && subs[r.value].name == name
    ensures r.None? ==> forall s <- subs :: s.name != name
    ensures r.Some? ==> forall s <- subs[..r.value] :: s.name != name
  {
    if subs == [] then None
    else
      var init := subs[..|subs| - 1];
      assert subs == init + [subs[|subs| - 1]];
      match IndexOf(init, name)
      case Some(i) => assert init[..i] == subs[..i]; Some(i)
      case None => if subs[|subs| - 1].name == name then Some(|subs| - 1) else None
  }

  // ------------------------------------------------------- updating a subscription

  function Removed(cfg: Config, idx: nat, fetched: seq<Addr>): seq<Addr>
    requires idx < |cfg.subs|
  {
    Minus(cfg.subs[idx].nodes, ToSet(fetched) + Manual(cfg) + Others(cfg.subs, idx))
  }

  function Kept(cfg: Config, idx: nat, fetched: seq<Addr>): seq<Addr>
    requires idx < |cfg.subs|
  {
    Minus(cfg.nodeAddrs, ToSet(Removed(cfg, idx, fetched)))
  }

  function Added(cfg: Config, idx: nat, fetched: seq<Addr>): seq<Addr>
    requires idx < |cfg.subs|
  {
    Minus(Dedup(fetched), ToSet(Kept(cfg, idx, fetched)) + Others(cfg.subs, idx))
  }

  function Claimed(cfg: Config, idx: nat, fetched: seq<Addr>): seq<Addr>
    requires idx < |cfg.subs|
  {
    Minus(Dedup(fetched), Manual(cfg) + Others(cfg.subs, idx))
  }

  /** The configuration after the subscription at `idx` fetched these addresses. */
  function Updated(cfg: Config, idx: nat, fetched: seq<Addr>, now: nat): Config
    requires idx < |cfg.subs|
  {
    var removed := ToSet(Removed(cfg, idx, fetched));
    Config(
      Kept(cfg, idx, fetched) + Added(cfg, idx, fetched),
      cfg.subs[idx := cfg.subs[idx].(nodes := Claimed(cfg, idx, fetched), lastUpdated := Some(now))],
      cfg.names - removed,
      cfg.certs - removed)
  }

  lemma KeptIs(cfg: Config, idx: nat, fetched: seq<Addr>)
    requires idx < |cfg.subs|
    ensures ToSet(Kept(cfg, idx, fetched))
         == Manual(cfg) + ToSet(cfg.nodeAddrs) * (Others(cfg.subs, idx) + ToSet(fetched))
  {
    OwnedIsAll(cfg.subs, idx);
    MinusIsDifference(cfg.subs[idx].nodes, ToSet(fetched) + Manual(cfg) + Others(cfg.subs, idx));
    MinusIsDifference(cfg.nodeAddrs, ToSet(Removed(cfg, idx, fetched)));
  }

  lemma AddedIs(cfg: Config, idx: nat, fetched: seq<Addr>)
    requires idx < |cfg.subs|
    ensures ToSet(Added(cfg, idx, fetched)) == ToSet(fetched) - ToSet(Kept(cfg, idx, fetched)) - Others(cfg.subs, idx)
  {
    DedupIsSet(fetched);
    MinusIsDifference(Dedup(fetched), ToSet(Kept(cfg, idx, fetched)) + Others(cfg.subs, idx));
  }

  lemma ClaimedIs(cfg: Config, idx: nat, fetched: seq<Addr>)
    requires idx < |cfg.subs|
    ensures ToSet(Claimed(cfg, idx, fetched)) == ToSet(fetched) - Manual(cfg) - Others(cfg.subs, idx)
    ensures Distinct(Claimed(cfg, idx, fetched))
  {
    DedupIsSet(fetched);
    MinusIsDifference(Dedup(fetched), Manual(cfg) + Others(cfg.subs, idx));
    MinusKeepsDistinct(Dedup(fetched), Manual(cfg) + Others(cfg.subs, idx));
  }

  /**
   The node set after an update: the manual nodes, the listed nodes others claim, and what
   was fetched and is not claimed by others. The new claims: what was fetched and is neither
   manual nor claimed by others.
   */
  lemma UpdateSets(cfg: Config, idx: nat, fetched: seq<Addr>, now: nat)
    requires idx < |cfg.subs|
    ensures var after, others := Updated(cfg, idx, fetched, now), Others(cfg.subs, idx);
            && ToSet(after.nodeAddrs) == Manual(cfg) + ToSet(cfg.nodeAddrs) * others + (ToSet(fetched) - others)
            && ToSet(after.subs[idx].nodes) == ToSet(fetched) - Manual(cfg) - others
            && Others(after.subs, idx) == others
  {
    KeptIs(cfg, idx, fetched);
    AddedIs(cfg, idx, fetched);
    ClaimedIs(cfg, idx, fetched);
    ToSetOfSum(Kept(cfg, idx, fetched), Added(cfg, idx, fetched));
    OthersIgnoreOwn(cfg.subs, idx, Updated(cfg, idx, fetched, now).subs[idx]);
    OwnedIsAll(cfg.subs, idx);
  }

  /** An update neither takes nor makes a manual node. */
  lemma UpdateKeepsManual(cfg: Config, idx: nat, fetched: seq<Addr>, now: nat)
    requires idx < |cfg.subs|
    ensures Manual(Updated(cfg, idx, fetched, now)) == Manual(cfg)
  {
    UpdateSets(cfg, idx, fetched, now);
    OwnedIsAll(cfg.subs, idx);
    OwnedIsAll(Updated(cfg, idx, fetched, now).subs, idx);
  }

  /** Only the subscription updated changes: the claims, names and sources of all others stay. */
  lemma UpdateTouchesOneSubscription(cfg: Config, idx: nat, fetched: seq<Addr>, now: nat, i: nat)
    requires idx < |cfg.subs| && i < |cfg.subs|
    ensures var after := Updated(cfg, idx, fetched, now);
            && |after.subs| == |cfg.subs|
            && after.subs[i].name == cfg.subs[i].name && after.subs[i].source == cfg.subs[i].source
            && (i != idx ==> after.subs[i] == cfg.subs[i])
  {
  }

  /** Fetching the same list again changes the timestamp and nothing else, and reports nothing. */
  lemma UpdateIsIdempotent(cfg: Config, idx: nat, fetched: seq<Addr>, now: nat, later: nat)
    requires idx < |cfg.subs|
    ensures var once := Updated(cfg, idx, fetched, now);
            && Added(once, idx, fetched) == [] && Removed(once, idx, fetched) == []
            && Updated(once, idx, fetched, later)
               == once.(subs := once.subs[idx := once.subs[idx].(lastUpdated := Some(later))])
  {
    var once := Updated(cfg, idx, fetched, now);
    UpdateSets(cfg, idx, fetched, now);
    UpdateKeepsManual(cfg, idx, fetched, now);
    SameClaims(cfg, idx, fetched, now);
    NothingRemoved(once, idx, fetched);
    NothingAdded(once, idx, fetched);
    QuietUpdate(once, idx, fetched, later);
  }

  lemma QuietUpdate(cfg: Config, idx: nat, fetched: seq<Addr>, now: nat)
    requires idx < |cfg.subs| && Removed(cfg, idx, fetched) == [] && Added(cfg, idx, fetched) == []
    requires Kept(cfg, idx, fetched) == cfg.nodeAddrs && Claimed(cfg, idx, fetched) == cfg.subs[idx].nodes
    ensures Updated(cfg, idx, fetched, now) == cfg.(subs := cfg.subs[idx := cfg.subs[idx].(lastUpdated := Some(now))])
  {
    assert ToSet([]) == {};
    assert cfg.names - {} == cfg.names && cfg.certs - {} == cfg.certs;
    assert cfg.nodeAddrs + [] == cfg.nodeAddrs;
  }

  lemma SameClaims(cfg: Config, idx: nat, fetched: seq<Addr>, now: nat)
    requires idx < |cfg.subs|
    ensures Claimed(Updated(cfg, idx, fetched, now), idx, fetched) == Claimed(cfg, idx, fetched)
  {
    UpdateKeepsManual(cfg, idx, fetched, now);
    UpdateSets(cfg, idx, fetched, now);
  }

  lemma NothingRemoved(cfg: Config, idx: nat, fetched: seq<Addr>)
    requires idx < |cfg.subs| && ToSet(cfg.subs[idx].nodes) <= ToSet(fetched)
    ensures Removed(cfg, idx, fetched) == [] && Kept(cfg, idx, fetched) == cfg.nodeAddrs
  {
    assert forall a <- cfg.subs[idx].nodes :: a in ToSet(cfg.subs[idx].nodes);
    MinusAll(cfg.subs[idx].nodes, ToSet(fetched) + Manual(cfg) + Others(cfg.subs, idx));
    assert ToSet([]) == {};
    MinusNothing(cfg.nodeAddrs, {});
  }

  lemma NothingAdded(cfg: Config, idx: nat, fetched: seq<Addr>)
    requires idx < |cfg.subs| && Kept(cfg, idx, fetched) == cfg.nodeAddrs
    requires ToSet(fetched) <= ToSet(cfg.nodeAddrs) + Others(cfg.subs, idx)
    ensures Added(cfg, idx, fetched) == []
  {
    DedupIsSet(fetched);
    assert forall a <- Dedup(fetched) :: a in ToSet(Dedup(fetched));
    MinusAll(Dedup(fetched), ToSet(cfg.nodeAddrs) + Others(cfg.subs, idx));
  }

  lemma ListedForOthers(manual: set<Addr>, listed: set<Addr>, others: set<Addr>, fetched: set<Addr>)
    requires manual * others == {}
    ensures (manual + listed * others + (fetched - others)) * others == listed * others
  {
    var after := manual + listed * others + (fetched - others);
    forall a ensures a in after * others <==> a in listed * others {
      assert a !in manual * others;
    }
  }

  lemma ManualIsUnclaimed(cfg: Config, idx: nat)
    requires idx < |cfg.subs|
    ensures Manual(cfg) * Others(cfg.subs, idx) == {}
  {
    OwnedIsAll(cfg.subs, idx);
  }

  /** What others claim of the list is there before and after an update. */
  lemma UpdateKeepsListedForOthers(cfg: Config, idx: nat, fetched: seq<Addr>, now: nat)
    requires idx < |cfg.subs|
    ensures var after, others := Updated(cfg, idx, fetched, now), Others(cfg.subs, idx);
            ToSet(after.nodeAddrs) * others == ToSet(cfg.nodeAddrs) * others && Others(after.subs, idx) == others
  {
    UpdateSets(cfg, idx, fetched, now);
    ManualIsUnclaimed(cfg, idx);
    ListedForOthers(Manual(cfg), ToSet(cfg.nodeAddrs), Others(cfg.subs, idx), ToSet(fetched));
  }

  lemma NodesForgetThePast(cfg: Config, once: Config, idx: nat, second: seq<Addr>, later: nat)
    requires idx < |cfg.subs| && idx < |once.subs| && Manual(once) == Manual(cfg)
    requires Others(once.subs, idx) == Others(cfg.subs, idx)
    requires ToSet(once.nodeAddrs) * Others(cfg.subs, idx) == ToSet(cfg.nodeAddrs) * Others(cfg.subs, idx)
    ensures ToSet(Updated(once, idx, second, later).nodeAddrs) == ToSet(Updated(cfg, idx, second, later).nodeAddrs)
    ensures Claimed(once, idx, second) == Claimed(cfg, idx, second)
  {
    UpdateSets(cfg, idx, second, later);
    UpdateSets(once, idx, second, later);
  }

  /** An intermediate update leaves no trace in the node set or in the claims of the next one. */
  lemma UpdateForgetsThePast(cfg: Config, idx: nat, first: seq<Addr>, second: seq<Addr>, now: nat, later: nat)
    requires idx < |cfg.subs|
    ensures var twice := Updated(Updated(cfg, idx, first, now), idx, second, later);
            var direct := Updated(cfg, idx, second, later);
            && ToSet(twice.nodeAddrs) == ToSet(direct.nodeAddrs)
            && twice.subs == direct.subs
  {
    var once := Updated(cfg, idx, first, now);
    UpdateKeepsManual(cfg, idx, first, now);
    UpdateKeepsListedForOthers(cfg, idx, first, now);
    NodesForgetThePast(cfg, once, idx, second, later);
    SubsForgetThePast(cfg, idx, Claimed(cfg, idx, first), Claimed(cfg, idx, second), now, later);
  }

  lemma SubsForgetThePast(cfg: Config, idx: nat, first: seq<Addr>, second: seq<Addr>, now: nat, later: nat)
    requires idx < |cfg.subs|
    ensures var once := cfg.subs[idx := cfg.subs[idx].(nodes := first, lastUpdated := Some(now))];
            once[idx := once[idx].(nodes := second, lastUpdated := Some(later))]
            == cfg.subs[idx := cfg.subs[idx].(nodes := second, lastUpdated := Some(later))]
  {
  }

  // ----------------------------------------------------- order, names and certificates

  /** This subscription alone claims the node and no longer fetches it. */
  predicate GivenUp(cfg: Config, idx: nat, fetched: seq<Addr>, a: Addr)
    requires idx < |cfg.subs|
  {
    a in cfg.subs[idx].nodes && a !in fetched && forall i :: 0 <= i < |cfg.subs| && i != idx ==> a !in cfg.subs[i].nodes
  }

  /** With a node that is given up go its name and its certificate, and no others; the update is dated. */
  lemma UpdateForgetsState(cfg: Config, idx: nat, fetched: seq<Addr>, now: nat, a: Addr)
    requires idx < |cfg.subs|
    ensures var after := Updated(cfg, idx, fetched, now);
            && (GivenUp(cfg, idx, fetched, a) ==> a !in after.nodeAddrs && a !in after.names && a !in after.certs)
            && (!GivenUp(cfg, idx, fetched, a) ==>
                  && (a in cfg.nodeAddrs ==> a in after.nodeAddrs)
                  && (a in cfg.names <==> a in after.names) && (a in cfg.names ==> after.names[a] == cfg.names[a])
                  && (a in cfg.certs <==> a in after.certs) && (a in cfg.certs ==> after.certs[a] == cfg.certs[a]))
            && after.subs[idx].lastUpdated == Some(now)
  {
    GivenUpIsRemoved(cfg, idx, fetched, a);
    MinusIsPart(cfg.nodeAddrs, ToSet(Removed(cfg, idx, fetched)), a);
    AddedIs(cfg, idx, fetched);
  }

  lemma GivenUpIsRemoved(cfg: Config, idx: nat, fetched: seq<Addr>, a: Addr)
    requires idx < |cfg.subs|
    ensures GivenUp(cfg, idx, fetched, a) <==> a in ToSet(Removed(cfg, idx, fetched))
    ensures GivenUp(cfg, idx, fetched, a) ==> a !in ToSet(Added(cfg, idx, fetched))
  {
    OwnedIsAll(cfg.subs, idx);
    MinusIsPart(cfg.subs[idx].nodes, ToSet(fetched) + Manual(cfg) + Others(cfg.subs, idx), a);
    AddedIs(cfg, idx, fetched);
  }

  predicate Precedes(s: seq<Addr>, a: Addr, b: Addr) { exists i, j :: 0 <= i < j < |s| && s[i] == a && s[j] == b }

  lemma PrecedesInMore(s: seq<Addr>, last: Addr, a: Addr, b: Addr)
    ensures Precedes(s + [last], a, b) <==> Precedes(s, a, b) || (a in s && b == last)
  {
    var more := s + [last];
    if Precedes(s, a, b) {
      var i, j :| 0 <= i < j < |s| && s[i] == a && s[j] == b;
      assert more[i] == a && more[j] == b;
    }
    if a in s && b == last {
      var i :| 0 <= i < |s| && s[i] == a;
      assert more[i] == a && more[|s|] == b;
    }
  }

  lemma {:induction false} MinusKeepsOrder(s: seq<Addr>, drop: set<Addr>, a: Addr, b: Addr)
    requires a !in drop && b !in drop
    ensures Precedes(Minus(s, drop), a, b) <==> Precedes(s, a, b)
  {
    if s != [] {
      var init, last := s[..|s| - 1], s[|s| - 1];
      MinusKeepsOrder(init, drop, a, b);
      MinusIsPart(init, drop, a);
      PrecedesInMore(init, last, a, b);
      PrecedesInMore(Minus(init, drop), last, a, b);
      assert init + [last] == s && Minus(init, drop) + [] == Minus(init, drop);
    }
  }

  /** `a` occurs in the list before `b` ever does. */
  predicate ComesFirst(s: seq<Addr>, a: Addr, b: Addr) { exists k :: 0 <= k < |s| && s[k] == a && b !in s[..k + 1] }

  lemma FirstInMore(s: seq<Addr>, last: Addr, a: Addr, b: Addr)
    ensures ComesFirst(s + [last], a, b) <==> ComesFirst(s, a, b) || (last == a != b && b !in s)
  {
    var more := s + [last];
    if ComesFirst(s, a, b) {
      var k :| 0 <= k < |s| && s[k] == a && b !in s[..k + 1];
      assert more[k] == a && more[..k + 1] == s[..k + 1];
    }
    if last == a != b && b !in s {
      assert more[|s|] == a && more[..|s| + 1] == more;
    }
    if ComesFirst(more, a, b) {
      var k :| 0 <= k < |more| && more[k] == a && b !in more[..k + 1];
      if k < |s| {
        assert s[k] == a && s[..k + 1] == more[..k + 1];
      } else {
        assert more[..k + 1] == more && s == more[..|s|];
      }
    }
  }

  /** First occurrences stand in the order in which they occur. */
  lemma {:induction false} DedupKeepsOrder(s: seq<Addr>, a: Addr, b: Addr)
    ensures Precedes(Dedup(s), a, b) <==> b in s && ComesFirst(s, a, b)
  {
    if s != [] {
      var init, last := s[..|s| - 1], s[|s| - 1];
      DedupKeepsOrder(init, a, b);
      DedupIsSet(init);
      assert a in Dedup(init) <==> a in ToSet(Dedup(init));
      assert b in Dedup(init) <==> b in ToSet(Dedup(init));
      FirstInMore(init, last, a, b);
      PrecedesInMore(Dedup(init), last, a, b);
      assert init + [last] == s;
      if b !in init {
        SomeComesFirst(init, a, b);
      }
    }
  }

  lemma {:induction false} SomeComesFirst(s: seq<Addr>, a: Addr, b: Addr)
    requires b !in s
    ensures ComesFirst(s, a, b) <==> a in s
  {
    if a in s {
      var k :| 0 <= k < |s| && s[k] == a;
      assert b !in s[..k + 1];
    }
  }

  lemma PrecedesInSum(s: seq<Addr>, t: seq<Addr>, a: Addr, b: Addr)
    ensures Precedes(s, a, b) || (a in s && b in t) || Precedes(t, a, b) ==> Precedes(s + t, a, b)
  {
    var sum := s + t;
    if Precedes(s, a, b) {
      var i, j :| 0 <= i < j < |s| && s[i] == a && s[j] == b;
      assert sum[i] == a && sum[j] == b;
    } else if a in s && b in t {
      var i :| 0 <= i < |s| && s[i] == a;
      var j :| 0 <= j < |t| && t[j] == b;
      assert sum[i] == a && sum[|s| + j] == b;
    } else if Precedes(t, a, b) {
      var i, j :| 0 <= i < j < |t| && t[i] == a && t[j] == b;
      assert sum[|s| + i] == a && sum[|s| + j] == b;
    }
  }

  /** New to the list, and nobody else's. */
  predicate IsNew(cfg: Config, idx: nat, fetched: seq<Addr>, a: Addr)
    requires idx < |cfg.subs|
  {
    a in fetched && a !in cfg.nodeAddrs && a !in Others(cfg.subs, idx)
  }

  lemma NewIsAdded(cfg: Config, idx: nat, fetched: seq<Addr>, a: Addr)
    requires idx < |cfg.subs| && IsNew(cfg, idx, fetched, a)
    ensures a in Added(cfg, idx, fetched) && a !in ToSet(Kept(cfg, idx, fetched)) + Others(cfg.subs, idx)
  {
    AddedIs(cfg, idx, fetched);
    MinusIsPart(cfg.nodeAddrs, ToSet(Removed(cfg, idx, fetched)), a);
    assert a in ToSet(Added(cfg, idx, fetched));
  }

  /**
   The list keeps its order and new nodes follow at its end, in the order in which they were
   first fetched.
   */
  lemma UpdateKeepsOrder(cfg: Config, idx: nat, fetched: seq<Addr>, now: nat, a: Addr, b: Addr)
    requires idx < |cfg.subs| && !GivenUp(cfg, idx, fetched, a) && !GivenUp(cfg, idx, fetched, b)
    ensures var after := Updated(cfg, idx, fetched, now).nodeAddrs;
            && (Precedes(cfg.nodeAddrs, a, b) ==> Precedes(after, a, b))
            && (a in cfg.nodeAddrs && IsNew(cfg, idx, fetched, b) ==> Precedes(after, a, b))
            && (IsNew(cfg, idx, fetched, a) && IsNew(cfg, idx, fetched, b) && ComesFirst(fetched, a, b) ==>
                  Precedes(after, a, b))
  {
    var removed, kept, added := ToSet(Removed(cfg, idx, fetched)), Kept(cfg, idx, fetched), Added(cfg, idx, fetched);
    GivenUpIsRemoved(cfg, idx, fetched, a);
    GivenUpIsRemoved(cfg, idx, fetched, b);
    MinusKeepsOrder(cfg.nodeAddrs, removed, a, b);
    MinusIsPart(cfg.nodeAddrs, removed, a);
    PrecedesInSum(kept, added, a, b);
    if IsNew(cfg, idx, fetched, b) {
      NewIsAdded(cfg, idx, fetched, b);
      if IsNew(cfg, idx, fetched, a) {
        NewIsAdded(cfg, idx, fetched, a);
        DedupKeepsOrder(fetched, a, b);
        MinusKeepsOrder(Dedup(fetched), ToSet(kept) + Others(cfg.subs, idx), a, b);
      }
    }
  }
}
