/**
 The registry of connections: entries that relays count bytes into, kept in registration
 order, finished once, and pruned when the list is read or grows.
 */
module Connections {
  import opened Wrappers
  import opened Addresses
  import opened Pruning

  datatype ConnInfo = ConnInfo(
    id: nat, target: string, node: SocketAddr, startedAt: nat,
    bytesUp: nat, bytesDown: nat, active: bool, closedAt: Option<nat>)

  class ConnEntry {
    const id: nat
    const target: string
    const node: SocketAddr
    const startedAt: nat
    var bytesUp: nat
    var bytesDown: nat
    var active: bool
    var closedAt: Option<nat>

    constructor (id: nat, target: string, node: SocketAddr, now: nat)
      ensures this.id == id && Info() == ConnInfo(id, target, node, now, 0, 0, true, None)
    {
      this.id, this.target, this.node, this.startedAt := id, target, node, now;
      bytesUp, bytesDown, active, closedAt := 0, 0, true, None;
    }

    function Info(): ConnInfo
      reads this
    {
      ConnInfo(id, target, node, startedAt, bytesUp, bytesDown, active, closedAt)
    }

    method AddBytes(up: nat, down: nat)
      modifies this`bytesUp, this`bytesDown
      ensures Info() == Touched(old(Info()), Bytes(up, down))
    {
      bytesUp := bytesUp + up;
      bytesDown := bytesDown + down;
    }

    /** Only the first of several calls records the closing time. */
    method Finish(now: nat)
      modifies this`active, this`closedAt
      ensures Info() == Closed(old(Info()), now)
    {
      if active {
        active := false;
        if closedAt.None? {
          closedAt := Some(now);
        }
      }
    }
  }

  function Closed(info: ConnInfo, now: nat): ConnInfo {
    if info.active then
      info.(active := false, closedAt := Some(if info.closedAt.Some? then info.closedAt.value else now))
    else info
  }

  // ------------------------------------------------------------------- one connection

  /** What a relay or the registry does to an entry, in whatever order. */
  datatype Touch = Bytes(up: nat, down: nat) | End(now: nat)

  function Touched(info: ConnInfo, t: Touch): ConnInfo {
    match t
    case Bytes(up, down) => info.(bytesUp := info.bytesUp + up, bytesDown := info.bytesDown + down)
    case End(now) => Closed(info, now)
  }

  function AllTouched(info: ConnInfo, touches: seq<Touch>): ConnInfo {
    if touches == [] then info else Touched(AllTouched(info, touches[..|touches| - 1]), touches[|touches| - 1])
  }

  function UpOf(t: Touch): nat { if t.Bytes? then t.up else 0 }

  function DownOf(t: Touch): nat { if t.Bytes? then t.down else 0 }

  function Sum(touches: seq<Touch>, of: Touch -> nat): nat {
    if touches == [] then 0 else Sum(touches[..|touches| - 1], of) + of(touches[|touches| - 1])
  }

  function FirstEnd(touches: seq<Touch>): Option<nat> {
    if touches == [] then None
    else
      var before := FirstEnd(touches[..|touches| - 1]);
      if before.None? && touches[|touches| - 1].End? then Some(touches[|touches| - 1].now) else before
  }

  /**
   However bytes and ends interleave, late bytes included: the counters are the sums of what was
   counted, and the connection is closed as of its first end, if it had one.
   */
  lemma {:induction false} TouchesAddUp(info: ConnInfo, touches: seq<Touch>)
    requires info.active && info.closedAt.None?
    ensures AllTouched(info, touches)
         == info.(bytesUp := info.bytesUp + Sum(touches, UpOf), bytesDown := info.bytesDown + Sum(touches, DownOf),
                  active := FirstEnd(touches).None?, closedAt := FirstEnd(touches))
  {
    if touches != [] {
      TouchesAddUp(info, touches[..|touches| - 1]);
    }
  }

  /** However often a connection is finished, the first time counts. */
  lemma {:induction false} FirstClosingCounts(info: ConnInfo, times: seq<nat>)
    requires info.active && info.closedAt.None? && times != []
    ensures AllClosed(info, times) == info.(active := false, closedAt := Some(times[0]))
  {
    if |times| > 1 {
      FirstClosingCounts(info, times[..|times| - 1]);
    } else {
      assert AllClosed(info, times[..0]) == info;
    }
  }

  function AllClosed(info: ConnInfo, times: seq<nat>): ConnInfo {
    if times == [] then info else Closed(AllClosed(info, times[..|times| - 1]), times[|times| - 1])
  }

  function RowOf(e: ConnEntry): Row
    reads e
  {
    Row(e, e.active, e.closedAt)
  }

  function Rows(list: seq<ConnEntry>): (rows: seq<Row>)
    reads list
    ensures |rows| == |list| && forall i :: 0 <= i < |list| ==> rows[i] == RowOf(list[i])
  {
    seq(|list|, i requires 0 <= i < |list| reads list => RowOf(list[i]))
  }

  lemma RowsOfMore(list: seq<ConnEntry>, e: ConnEntry)
    ensures Rows(list + [e]) == Rows(list) + [RowOf(e)]
  {
  }

  lemma RowsWithout(list: seq<ConnEntry>, i: nat)
    requires i < |list|
    ensures Rows(list[..i] + list[i + 1..]) == Without(Rows(list), i)
  {
    WithoutIsSlices(Rows(list), i);
  }

  /** Drop the entries closed at least 60 seconds ago. */
  method RetainRecent(list: seq<ConnEntry>, now: nat) returns (kept: seq<ConnEntry>)
    ensures Rows(kept) == Retained(Rows(list), now)
    ensures forall e <- kept :: e in list
  {
    kept := [];
    for i := 0 to |list|
      invariant Rows(kept) == Retained(Rows(list[..i]), now)
      invariant forall e <- kept :: e in list
    {
      var e := list[i];
      assert list[..i + 1] == list[..i] + [e];
      RowsOfMore(list[..i], e);
      RowsOfMore(kept, e);
      RetainedOfMore(Rows(list[..i]), RowOf(e), now);
      if e.closedAt.None? || now < e.closedAt.value + RETAIN_AFTER_CLOSE {
        kept := kept + [e];
      }
    }
    assert list[..|list|] == list;
  }

  /** The first entry that is not active, or the very first. */
  method FindVictim(list: seq<ConnEntry>) returns (victim: nat)
    requires list != []
    ensures victim == Victim(Rows(list))
  {
    for i := 0 to |list|
      invariant forall k :: 0 <= k < i ==> Rows(list)[k].active
    {
      if !list[i].active {
        FirstIsVictim(Rows(list), i);
        return i;
      }
    }
    NoneFinished(Rows(list));
    return 0;
  }

  lemma {:induction false} NoneFinished(rows: seq<Row>)
    requires forall k :: 0 <= k < |rows| ==> rows[k].active
    ensures CountFinished(rows) == 0
  {
    if rows != [] {
      NoneFinished(rows[1..]);
    }
  }

  lemma {:induction false} FirstIsVictim(rows: seq<Row>, i: nat)
    requires i < |rows| && !rows[i].active && forall k :: 0 <= k < i ==> rows[k].active
    ensures Victim(rows) == i && CountFinished(rows) > 0
  {
    if i > 0 {
      FirstIsVictim(rows[1..], i - 1);
    }
  }

  method Prune(list: seq<ConnEntry>, limit: nat, now: nat) returns (rest: seq<ConnEntry>)
    ensures Rows(rest) == Survivors(Retained(Rows(list), now), limit)
    ensures forall e <- rest :: e in list
    ensures |rest| <= limit
    ensures limit >= 1 && list != [] && Open(list[|list| - 1]) ==> list[|list| - 1] in rest
  {
    rest := RetainRecent(list, now);
    while |rest| > limit
      invariant Survivors(Rows(rest), limit) == Survivors(Retained(Rows(list), now), limit)
      invariant forall e <- rest :: e in list
    {
      var victim := FindVictim(rest);
      VictimStep(Rows(rest), limit);
      RowsWithout(rest, victim);
      rest := rest[..victim] + rest[victim + 1..];
    }
    if limit >= 1 && list != [] && Open(list[|list| - 1]) {
      NewestIsKept(list, rest, limit, now);
    }
  }

  predicate Open(e: ConnEntry)
    reads e
  {
    e.active && e.closedAt.None?
  }

  lemma NewestIsKept(list: seq<ConnEntry>, rest: seq<ConnEntry>, limit: nat, now: nat)
    requires limit >= 1 && list != [] && Open(list[|list| - 1])
    requires Rows(rest) == Survivors(Retained(Rows(list), now), limit)
    ensures list[|list| - 1] in rest
  {
    NewestRetained(Rows(list), now);
    NewestSurvives(Retained(Rows(list), now), limit);
  }

  /** Push an entry at the end, then prune. */
  method Enlist(list: seq<ConnEntry>, entry: ConnEntry, limit: nat, now: nat) returns (rest: seq<ConnEntry>)
    requires Open(entry)
    ensures Rows(rest) == Survivors(Retained(Rows(list) + [Row(entry, true, None)], now), limit)
    ensures forall e <- rest :: e in list || e == entry
    ensures |rest| <= limit && (limit >= 1 ==> entry in rest)
  {
    RowsOfMore(list, entry);
    rest := Prune(list + [entry], limit, now);
  }

  method Infos(list: seq<ConnEntry>) returns (infos: seq<ConnInfo>)
    ensures |infos| == |list| && forall i :: 0 <= i < |list| ==> infos[i] == list[i].Info()
  {
    infos := [];
    for i := 0 to |list|
      invariant |infos| == i && forall k :: 0 <= k < i ==> infos[k] == list[k].Info()
    {
      infos := infos + [list[i].Info()];
    }
  }

  class ConnectionRegistry {
    var entries: seq<ConnEntry>
    var nextId: nat
    const maxEntries: nat

    constructor (maxEntries: nat)
      ensures entries == [] && nextId == 1 && this.maxEntries == maxEntries
    {
      entries, nextId, this.maxEntries := [], 1, maxEntries;
    }

    /** Ids are given out in order and never twice. */
    ghost predicate Valid()
      reads this
    {
      && (forall e <- entries :: e.id < nextId)
    }

    method Register(target: string, node: SocketAddr, now: nat) returns (entry: ConnEntry)
      requires Valid()
      modifies this`entries, this`nextId
      ensures Valid() && fresh(entry) && entry.id == old(nextId) && nextId == old(nextId) + 1
      ensures entry.Info() == ConnInfo(entry.id, target, node, now, 0, 0, true, None)
      ensures Rows(entries) == Survivors(Retained(Rows(old(entries)) + [Row(entry, true, None)], now), maxEntries)
      ensures |entries| <= maxEntries
      ensures maxEntries >= 1 ==> entry in entries
      ensures forall e <- old(entries) :: e.Info() == old(e.Info())
    {
      entry := new ConnEntry(nextId, target, node, now);
      nextId := nextId + 1;
      entries := Enlist(entries, entry, maxEntries, now);
    }

    /** Count bytes for the entry of an id, if it is still registered; nothing else is touched. */
    method UpdateBytes(id: nat, up: nat, down: nat)
      requires Valid()
      modifies entries
      ensures Valid() && entries == old(entries)
      ensures forall e <- entries ::
                e.Info()
                == if FirstWithId(entries, id, e) then Touched(old(e.Info()), Bytes(up, down)) else old(e.Info())
    {
      for i := 0 to |entries|
        invariant forall k :: 0 <= k < i ==> entries[k].id != id
        invariant forall e <- entries :: e.Info() == old(e.Info())
      {
        if entries[i].id == id {
          entries[i].AddBytes(up, down);
          return;
        }
      }
    }

    /** Finish the entry of an id, if it is still registered; nothing else is touched. */
    method FinishById(id: nat, now: nat)
      requires Valid()
      modifies entries
      ensures Valid() && entries == old(entries)
      ensures forall e <- entries ::
                e.Info() == if FirstWithId(entries, id, e) then Touched(old(e.Info()), End(now)) else old(e.Info())
    {
      for i := 0 to |entries|
        invariant forall k :: 0 <= k < i ==> entries[k].id != id
        invariant forall e <- entries :: e.Info() == old(e.Info())
      {
        if entries[i].id == id {
          entries[i].Finish(now);
          return;
        }
      }
    }

    /** Everything registered, in order, after pruning. */
    method Snapshot(now: nat) returns (infos: seq<ConnInfo>)
      requires Valid()
      modifies this`entries
      ensures Valid() && |entries| <= maxEntries
      ensures Rows(entries) == Survivors(Retained(Rows(old(entries)), now), maxEntries)
      ensures |infos| == |entries| && forall i :: 0 <= i < |entries| ==> infos[i] == entries[i].Info()
      ensures forall e <- old(entries) :: e.Info() == old(e.Info())
    {
      var rest := Prune(entries, maxEntries, now);
      entries := rest;
      infos := Infos(rest);
    }
  }

  /** The entry is the first of the list that carries the id. */
  ghost predicate FirstWithId(list: seq<ConnEntry>, id: nat, e: ConnEntry) {
    exists i :: 0 <= i < |list| && list[i] == e && e.id == id && forall k :: 0 <= k < i ==> list[k].id != id
  }
}
