/** Moving a node to another address: its place in the list, its owners, its name and certificate. */
module Renaming {
  import opened Claims

  function Swap(a: Addr, from: Addr, to: Addr): Addr { if a == from then to else a }

  function RenameIn(s: seq<Addr>, from: Addr, to: Addr): seq<Addr> {
    seq(|s|, i requires 0 <= i < |s| => Swap(s[i], from, to))
  }

  function RenameSub(s: Sub, from: Addr, to: Addr): Sub { s.(nodes := RenameIn(s.nodes, from, to)) }

  function RenameSubs(subs: seq<Sub>, from: Addr, to: Addr): seq<Sub> {
    seq(|subs|, i requires 0 <= i < |subs| => RenameSub(subs[i], from, to))
  }

  /** An entry moves to the new key, unless the new key already has one. */
  function MoveKey(m: map<Addr, string>, from: Addr, to: Addr): map<Addr, string> {
    if from !in m then m
    else if to in m then m - {from}
    else (m - {from})[to := m[from]]
  }

  function Renamed(cfg: Config, from: Addr, to: Addr): Config {
    if from == to then cfg
    else
      Config(RenameIn(cfg.nodeAddrs, from, to), RenameSubs(cfg.subs, from, to),
             MoveKey(cfg.names, from, to), MoveKey(cfg.certs, from, to))
  }

  lemma RenameInBack(s: seq<Addr>, from: Addr, to: Addr)
    requires to !in s
    ensures RenameIn(RenameIn(s, from, to), to, from) == s
  {
  }

  lemma RenameSubsBack(subs: seq<Sub>, from: Addr, to: Addr)
    requires to !in Owned(subs)
    ensures RenameSubs(RenameSubs(subs, from, to), to, from) == subs
  {
    var there := RenameSubs(subs, from, to);
    forall i | 0 <= i < |subs| ensures RenameSub(there[i], to, from) == subs[i] {
      RenameInBack(subs[i].nodes, from, to);
    }
  }

  lemma MoveKeyBack(m: map<Addr, string>, from: Addr, to: Addr)
    requires from != to && to !in m
    ensures MoveKey(MoveKey(m, from, to), to, from) == m
  {
  }

  /** Renaming to an address nobody uses, and back, restores the whole configuration. */
  lemma RenameRoundTrip(cfg: Config, from: Addr, to: Addr)
    requires to !in cfg.nodeAddrs && to !in Owned(cfg.subs) && to !in cfg.names && to !in cfg.certs
    ensures Renamed(Renamed(cfg, from, to), to, from) == cfg
  {
    RenameInBack(cfg.nodeAddrs, from, to);
    RenameSubsBack(cfg.subs, from, to);
    if from != to {
      MoveKeyBack(cfg.names, from, to);
      MoveKeyBack(cfg.certs, from, to);
    }
  }

  /** Ownership follows the node: each subscription owns what it owned, under the new address. */
  lemma RenameMovesOwnership(cfg: Config, from: Addr, to: Addr, a: Addr)
    requires to !in cfg.nodeAddrs && to !in Owned(cfg.subs)
    ensures a in Owned(cfg.subs) <==> a != to && Swap(a, from, to) in Owned(Renamed(cfg, from, to).subs)
    ensures a in Manual(cfg) <==> a != to && Swap(a, from, to) in Manual(Renamed(cfg, from, to))
  {
    if from != to {
      OwnershipMoves(cfg.subs, from, to, a);
      ListMoves(cfg.nodeAddrs, from, to, a);
    }
  }

  lemma ListMoves(s: seq<Addr>, from: Addr, to: Addr, a: Addr)
    requires from != to && to !in s
    ensures a in s <==> a != to && Swap(a, from, to) in RenameIn(s, from, to)
  {
    var there := RenameIn(s, from, to);
    if a in s {
      var i :| 0 <= i < |s| && s[i] == a;
      assert there[i] == Swap(a, from, to);
    }
    if a != to && Swap(a, from, to) in there {
      var i :| 0 <= i < |there| && there[i] == Swap(a, from, to);
      assert s[i] == a;
    }
  }

  lemma OwnershipMoves(subs: seq<Sub>, from: Addr, to: Addr, a: Addr)
    requires from != to && to !in Owned(subs)
    ensures a in Owned(subs) <==> a != to && Swap(a, from, to) in Owned(RenameSubs(subs, from, to))
  {
    var there := RenameSubs(subs, from, to);
    if a in Owned(subs) {
      var i :| 0 <= i < |subs| && a in subs[i].nodes;
      ListMoves(subs[i].nodes, from, to, a);
      assert Swap(a, from, to) in there[i].nodes;
    }
    if a != to && Swap(a, from, to) in Owned(there) {
      var i :| 0 <= i < |there| && Swap(a, from, to) in there[i].nodes;
      ListMoves(subs[i].nodes, from, to, a);
      assert a in subs[i].nodes;
    }
  }

  /** Each subscription, by position, owns what it owned under the new address, and keeps all else. */
  lemma RenameMovesEachClaim(cfg: Config, from: Addr, to: Addr, i: nat, a: Addr)
    requires from != to && to !in Owned(cfg.subs) && i < |cfg.subs|
    ensures var after := Renamed(cfg, from, to);
            && |after.subs| == |cfg.subs| && after.subs[i].(nodes := []) == cfg.subs[i].(nodes := [])
            && (a in cfg.subs[i].nodes <==> a != to && (if a == from then to else a) in after.subs[i].nodes)
  {
    ListMoves(cfg.subs[i].nodes, from, to, a);
  }

  /**
   Name and certificate go to the new address and leave the old one; where the new address has its
   own, that stays, and nobody else's moves.
   */
  lemma RenameMovesState(cfg: Config, from: Addr, to: Addr, a: Addr)
    requires from != to
    ensures var after := Renamed(cfg, from, to);
            && from !in after.names && from !in after.certs
            && (to in cfg.names ==> to in after.names && after.names[to] == cfg.names[to])
            && (to in cfg.certs ==> to in after.certs && after.certs[to] == cfg.certs[to])
            && (to !in cfg.names && from in cfg.names ==> to in after.names && after.names[to] == cfg.names[from])
            && (to !in cfg.certs && from in cfg.certs ==> to in after.certs && after.certs[to] == cfg.certs[from])
            && (a !in {from, to} && a in cfg.names ==> a in after.names && after.names[a] == cfg.names[a])
            && (a !in {from, to} && a in cfg.certs ==> a in after.certs && after.certs[a] == cfg.certs[a])
  {
  }
}
