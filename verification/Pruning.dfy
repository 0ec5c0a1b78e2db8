/**
 Which connections a full registry gives up. A row stands for one entry of the registration
 list; `handle` is whatever identifies it.
 */
module Pruning {
  import opened Wrappers

  const RETAIN_AFTER_CLOSE := 60

  datatype Row = Row(handle: object, active: bool, closedAt: Option<nat>)

  predicate Recent(r: Row, now: nat) {
    r.closedAt.Some? ==> now < r.closedAt.value + RETAIN_AFTER_CLOSE
  }

  /** What is left after dropping entries closed too long ago. */
  function Retained(list: seq<Row>, now: nat): seq<Row> {
    if list == [] then []
    else Retained(list[..|list| - 1], now) + if Recent(list[|list| - 1], now) then [list[|list| - 1]] else []
  }

  lemma RetainedOfMore(list: seq<Row>, r: Row, now: nat)
    ensures Retained(list + [r], now) == Retained(list, now) + if Recent(r, now) then [r] else []
  {
    assert (list + [r])[..|list|] == list;
  }

  /** Nothing open and nothing closed recently is dropped, and everything else is. */
  lemma {:induction false} RetainedIsRecent(list: seq<Row>, now: nat, r: Row)
    ensures r in Retained(list, now) <==> r in list && Recent(r, now)
  {
    if list != [] {
      RetainedIsRecent(list[..|list| - 1], now, r);
      assert list == list[..|list| - 1] + [list[|list| - 1]];
    }
  }

  function CountFinished(list: seq<Row>): nat {
    if list == [] then 0 else (if list[0].active then 0 else 1) + CountFinished(list[1..])
  }

  function Actives(list: seq<Row>): seq<Row> {
    if list == [] then [] else (if list[0].active then [list[0]] else []) + Actives(list[1..])
  }

  /** The list without its first `k` finished entries. */
  function DropFinished(list: seq<Row>, k: nat): seq<Row> {
    if k == 0 || list == [] then list
    else if list[0].active then [list[0]] + DropFinished(list[1..], k)
    else DropFinished(list[1..], k - 1)
  }

  /** What a registry of this size keeps: the oldest finished go first, then the oldest of all. */
  function Survivors(list: seq<Row>, limit: nat): seq<Row> {
    if |list| <= limit then list
    else if |list| - limit <= CountFinished(list) then DropFinished(list, |list| - limit)
    else Newest(Actives(list), limit)
  }

  /** The last `n` rows. */
  function Newest(list: seq<Row>, n: nat): seq<Row> {
    if |list| <= n then list else list[|list| - n..]
  }

  lemma {:induction false} ActivesAndFinished(list: seq<Row>)
    ensures |Actives(list)| + CountFinished(list) == |list|
  {
    if list != [] {
      ActivesAndFinished(list[1..]);
    }
  }

  /** The entry the eviction loop takes next. */
  function Victim(list: seq<Row>): (v: nat)
    requires list != []
    ensures v < |list|
  {
    if CountFinished(list) == 0 then 0 else FirstFinished(list)
  }

  function FirstFinished(list: seq<Row>): (v: nat)
    requires CountFinished(list) > 0
    ensures v < |list|
  {
    if !list[0].active then 0 else 1 + FirstFinished(list[1..])
  }

  /** It is finished, and everything before it is active. */
  lemma {:induction false} FirstFinishedIsFirst(list: seq<Row>)
    requires CountFinished(list) > 0
    ensures !list[FirstFinished(list)].active && forall i :: 0 <= i < FirstFinished(list) ==> list[i].active
  {
    if list[0].active {
      var v := FirstFinished(list);
      FirstFinishedIsFirst(list[1..]);
      forall i | 0 <= i < v ensures list[i].active {
        assert i > 0 ==> list[i] == list[1..][i - 1];
      }
    }
  }

  function Without(list: seq<Row>, i: nat): (rest: seq<Row>)
    requires i < |list|
    ensures |rest| == |list| - 1
  {
    if i == 0 then list[1..] else [list[0]] + Without(list[1..], i - 1)
  }

  lemma {:induction false} WithoutIsSlices(list: seq<Row>, i: nat)
    requires i < |list|
    ensures Without(list, i) == list[..i] + list[i + 1..]
  {
    if i > 0 {
      WithoutIsSlices(list[1..], i - 1);
      assert list[..i] == [list[0]] + list[1..][..i - 1] && list[1..][i..] == list[i + 1..];
    }
  }

  lemma BehindActive(head: Row, tail: seq<Row>, k: nat)
    requires head.active
    ensures var list := [head] + tail;
            && DropFinished(list, k) == [head] + DropFinished(tail, k)
            && CountFinished(list) == CountFinished(tail) && Actives(list) == [head] + Actives(tail)
            && (CountFinished(tail) > 0 ==> FirstFinished(list) == FirstFinished(tail) + 1)
  {
    assert ([head] + tail)[1..] == tail;
  }

  /** Without the first finished entry: the same entry list behind an active head. */
  lemma FirstFinishedBehind(list: seq<Row>)
    requires CountFinished(list) > 0 && list[0].active
    ensures CountFinished(list[1..]) > 0
    ensures Without(list, FirstFinished(list)) == [list[0]] + Without(list[1..], FirstFinished(list[1..]))
    ensures list == [list[0]] + list[1..]
  {
    WithoutBehind(list, FirstFinished(list[1..]));
  }

  lemma WithoutBehind(list: seq<Row>, i: nat)
    requires i + 1 < |list|
    ensures Without(list, i + 1) == [list[0]] + Without(list[1..], i)
  {
  }

  lemma {:induction false} WithoutFinished(list: seq<Row>, k: nat)
    requires CountFinished(list) > 0 && k > 0
    ensures DropFinished(Without(list, FirstFinished(list)), k - 1) == DropFinished(list, k)
  {
    if !list[0].active {
      assert Without(list, 0) == list[1..];
    } else {
      FirstFinishedBehind(list);
      WithoutFinished(list[1..], k);
      BehindActive(list[0], list[1..], k);
      BehindActive(list[0], Without(list[1..], FirstFinished(list[1..])), k - 1);
    }
  }

  lemma {:induction false} OneFewer(list: seq<Row>)
    requires CountFinished(list) > 0
    ensures var rest := Without(list, FirstFinished(list));
            CountFinished(rest) == CountFinished(list) - 1 && Actives(rest) == Actives(list)
  {
    if !list[0].active {
      assert Without(list, 0) == list[1..];
    } else {
      FirstFinishedBehind(list);
      OneFewer(list[1..]);
      BehindActive(list[0], list[1..], 0);
      BehindActive(list[0], Without(list[1..], FirstFinished(list[1..])), 0);
    }
  }

  lemma CountsOneFewer(list: seq<Row>)
    requires CountFinished(list) > 0
    ensures CountFinished(Without(list, FirstFinished(list))) == CountFinished(list) - 1
  {
    OneFewer(list);
  }

  lemma SameActives(list: seq<Row>)
    requires CountFinished(list) > 0
    ensures Actives(Without(list, FirstFinished(list))) == Actives(list)
  {
    OneFewer(list);
  }

  lemma {:induction false} AllActive(list: seq<Row>)
    requires CountFinished(list) == 0
    ensures Actives(list) == list
  {
    if list != [] {
      AllActive(list[1..]);
    }
  }

  lemma {:induction false} AllDropped(list: seq<Row>)
    ensures DropFinished(list, CountFinished(list)) == Actives(list)
  {
    if list == [] {
    } else if CountFinished(list) == 0 {
      AllActive(list);
    } else {
      AllDropped(list[1..]);
    }
  }

  lemma EnoughFinished(list: seq<Row>, limit: nat, k: nat)
    requires |list| == limit + k && k <= CountFinished(list)
    ensures Survivors(list, limit) == DropFinished(list, k)
  {
  }

  lemma TooFewFinished(list: seq<Row>, limit: nat, actives: seq<Row>)
    requires |list| >= limit && |list| - limit > CountFinished(list) && Actives(list) == actives
    ensures Survivors(list, limit) == Newest(actives, limit)
  {
  }

  lemma NoneToDrop(list: seq<Row>, limit: nat)
    requires |list| >= limit && CountFinished(list) == 0
    ensures Survivors(list, limit) == Newest(list, limit)
  {
    AllActive(list);
  }

  lemma NewestOfRest(list: seq<Row>, n: nat)
    requires |list| > n
    ensures Newest(list[1..], n) == Newest(list, n)
  {
  }

  lemma OldestStep(list: seq<Row>, limit: nat)
    requires |list| > limit && CountFinished(list) == 0
    ensures Survivors(Without(list, 0), limit) == Survivors(list, limit)
  {
    NoneToDrop(list, limit);
    NoneToDrop(list[1..], limit);
    NewestOfRest(list, limit);
  }

  lemma TooFewOneFewer(list: seq<Row>, rest: seq<Row>, limit: nat, finished: nat, actives: seq<Row>)
    requires |list| > limit && |rest| == |list| - 1 && |list| - limit > finished > 0
    requires CountFinished(list) == finished && CountFinished(rest) == finished - 1
    requires Actives(list) == actives && Actives(rest) == actives
    ensures Survivors(rest, limit) == Newest(actives, limit) && Survivors(list, limit) == Newest(actives, limit)
  {
    TooFewFinished(list, limit, actives);
    TooFewFinished(rest, limit, actives);
  }

  lemma FinishedStepEnough(list: seq<Row>, limit: nat, k: nat)
    requires |list| == limit + k && 0 < k <= CountFinished(list)
    ensures Survivors(Without(list, FirstFinished(list)), limit) == Survivors(list, limit)
  {
    CountsOneFewer(list);
    WithoutFinished(list, k);
    EnoughFinished(list, limit, k);
    EnoughFinished(Without(list, FirstFinished(list)), limit, k - 1);
  }

  lemma FinishedStepTooFew(list: seq<Row>, limit: nat)
    requires |list| > limit && CountFinished(list) > 0 && |list| - limit > CountFinished(list)
    ensures Survivors(Without(list, FirstFinished(list)), limit) == Survivors(list, limit)
  {
    CountsOneFewer(list);
    SameActives(list);
    TooFewOneFewer(list, Without(list, FirstFinished(list)), limit, CountFinished(list), Actives(list));
  }

  lemma FinishedStep(list: seq<Row>, limit: nat)
    requires |list| > limit && CountFinished(list) > 0
    ensures Survivors(Without(list, FirstFinished(list)), limit) == Survivors(list, limit)
  {
    if |list| - limit <= CountFinished(list) {
      FinishedStepEnough(list, limit, |list| - limit);
    } else {
      FinishedStepTooFew(list, limit);
    }
  }

  /** Taking the next victim does not change what survives. */
  lemma VictimStep(list: seq<Row>, limit: nat)
    requires |list| > limit
    ensures Survivors(Without(list, Victim(list)), limit) == Survivors(list, limit)
  {
    if CountFinished(list) == 0 {
      OldestStep(list, limit);
    } else {
      FinishedStep(list, limit);
    }
  }

  // ------------------------------------------------------------------ what it means

  /** The first `n + 1` rows are the first one and the first `n` of the rest. */
  lemma FirstRows(list: seq<Row>, n: nat)
    requires n < |list|
    ensures CountFinished(list[..n + 1]) == (if list[0].active then 0 else 1) + CountFinished(list[1..][..n])
    ensures Actives(list[..n + 1]) == (if list[0].active then [list[0]] else []) + Actives(list[1..][..n])
    ensures list[1..][n..] == list[n + 1..]
  {
    assert list[..n + 1][1..] == list[1..][..n];
  }

  /** Before `c` the `k` finished rows go, from there on everything stays. */
  predicate CutsAt(list: seq<Row>, k: nat, c: nat) {
    && c <= |list| && CountFinished(list[..c]) == k
    && DropFinished(list, k) == Actives(list[..c]) + list[c..]
    && (k > 0 ==> c > 0 && !list[c - 1].active)
  }

  lemma CutAtHead(list: seq<Row>)
    requires list != [] && !list[0].active
    ensures CutsAt(list, 1, 1)
  {
    FirstRows(list, 0);
  }

  lemma CutBehindActive(list: seq<Row>, k: nat, c: nat)
    requires list != [] && list[0].active && k > 0 && CutsAt(list[1..], k, c)
    ensures CutsAt(list, k, c + 1)
  {
    FirstRows(list, c);
    assert [list[0]] + (Actives(list[1..][..c]) + list[c + 1..]) == Actives(list[..c + 1]) + list[c + 1..];
  }

  lemma CutBehindFinished(list: seq<Row>, k: nat, c: nat)
    requires list != [] && !list[0].active && k > 0 && CutsAt(list[1..], k, c)
    ensures CutsAt(list, k + 1, c + 1)
  {
    FirstRows(list, c);
  }

  lemma {:induction false} CutPoint(list: seq<Row>, k: nat) returns (c: nat)
    requires k <= CountFinished(list)
    ensures CutsAt(list, k, c)
  {
    if k == 0 {
      c := 0;
    } else if list[0].active {
      var n := CutPoint(list[1..], k);
      CutBehindActive(list, k, n);
      c := n + 1;
    } else if k == 1 {
      CutAtHead(list);
      c := 1;
    } else {
      var n := CutPoint(list[1..], k - 1);
      CutBehindFinished(list, k - 1, n);
      c := n + 1;
    }
  }

  /**
   Exactly what goes when the list is too long. If enough entries are finished, there is a
   point in registration order before which all finished ones go and after which everything
   stays, and just as many go as have to. Otherwise all finished ones go, and of the active
   ones just the newest stay.
   */
  lemma PruningIsExact(list: seq<Row>, limit: nat) returns (c: nat)
    requires |list| > limit
    ensures |Survivors(list, limit)| == limit
    ensures |list| - limit <= CountFinished(list) ==>
              && c <= |list| && CountFinished(list[..c]) == |list| - limit
              && Survivors(list, limit) == Actives(list[..c]) + list[c..]
              && forall r <- Actives(list[..c]) :: r.active
    ensures |list| - limit > CountFinished(list) ==>
              && |Actives(list)| > limit
              && Survivors(list, limit) == Actives(list)[|Actives(list)| - limit..]
              && forall r <- Actives(list) :: r.active
  {
    ActivesAndFinished(list);
    ActiveIsActive(list);
    c := 0;
    if |list| - limit <= CountFinished(list) {
      c := CutPoint(list, |list| - limit);
      ActivesAndFinished(list[..c]);
      ActiveIsActive(list[..c]);
    }
  }

  /** `order` picks rows of the list, going up: nothing is reordered or invented. */
  ghost predicate Picks(result: seq<Row>, list: seq<Row>, order: seq<nat>) {
    && |order| == |result|
    && (forall i :: 0 <= i < |order| ==> order[i] < |list| && result[i] == list[order[i]])
    && (forall i, j :: 0 <= i < j < |order| ==> order[i] < order[j])
  }

  function Shift(order: seq<nat>): seq<nat> { seq(|order|, i requires 0 <= i < |order| => order[i] + 1) }

  lemma PicksShifted(result: seq<Row>, list: seq<Row>, order: seq<nat>)
    requires list != [] && Picks(result, list[1..], order)
    ensures Picks(result, list, Shift(order))
  {
    forall i | 0 <= i < |order| ensures Shift(order)[i] < |list| && result[i] == list[Shift(order)[i]] {
      assert result[i] == list[1..][order[i]];
    }
  }

  lemma PicksFromHead(result: seq<Row>, list: seq<Row>, order: seq<nat>)
    requires list != [] && Picks(result, list, order) && (forall i :: 0 <= i < |order| ==> order[i] > 0)
    ensures Picks([list[0]] + result, list, [0] + order)
  {
  }

  lemma PicksLater(result: seq<Row>, list: seq<Row>, order: seq<nat>)
    requires list != [] && Picks(result, list[1..], order)
    ensures Picks(result, list, Shift(order))
    ensures Picks([list[0]] + result, list, [0] + Shift(order))
  {
    PicksShifted(result, list, order);
    PicksFromHead(result, list, Shift(order));
  }

  lemma {:induction false} DropFinishedKeepsOrder(list: seq<Row>, k: nat) returns (order: seq<nat>)
    ensures Picks(DropFinished(list, k), list, order)
  {
    if k == 0 || list == [] {
      order := seq(|list|, i => i);
    } else {
      var tail := DropFinishedKeepsOrder(list[1..], if list[0].active then k else k - 1);
      PicksLater(DropFinished(list[1..], if list[0].active then k else k - 1), list, tail);
      order := if list[0].active then [0] + Shift(tail) else Shift(tail);
    }
  }

  lemma {:induction false} ActivesKeepOrder(list: seq<Row>) returns (order: seq<nat>)
    ensures Picks(Actives(list), list, order)
  {
    AllDropped(list);
    order := DropFinishedKeepsOrder(list, CountFinished(list));
  }

  lemma NewestKeepOrder(rows: seq<Row>, list: seq<Row>, order: seq<nat>, n: nat)
    requires Picks(rows, list, order) && |rows| >= n
    ensures Picks(rows[|rows| - n..], list, order[|order| - n..])
  {
  }

  /** The survivors keep their registration order. */
  lemma SurvivorsKeepOrder(list: seq<Row>, limit: nat) returns (order: seq<nat>)
    ensures Picks(Survivors(list, limit), list, order)
  {
    if |list| <= limit {
      order := DropFinishedKeepsOrder(list, 0);
    } else if |list| - limit <= CountFinished(list) {
      EnoughFinished(list, limit, |list| - limit);
      order := DropFinishedKeepsOrder(list, |list| - limit);
    } else {
      var actives := ActivesKeepOrder(list);
      ActivesAndFinished(list);
      TooFewFinished(list, limit, Actives(list));
      NewestKeepOrder(Actives(list), list, actives, limit);
      order := actives[|actives| - limit..];
    }
  }

  lemma {:induction false} ActiveIsActive(list: seq<Row>)
    ensures forall r <- Actives(list) :: r.active
  {
    if list != [] {
      ActiveIsActive(list[1..]);
    }
  }

  /** `rows` ends with this row. */
  predicate EndsWith(rows: seq<Row>, r: Row) { rows != [] && rows[|rows| - 1] == r }

  lemma {:induction false} LastStays(list: seq<Row>, k: nat)
    requires list != [] && list[|list| - 1].active
    ensures EndsWith(DropFinished(list, k), list[|list| - 1])
  {
    if k > 0 && |list| > 1 {
      LastStays(list[1..], if list[0].active then k else k - 1);
    } else {
      assert k > 0 ==> list == [list[0]] && DropFinished(list[1..], k) == [];
    }
  }

  lemma NewestEndsTheSame(rows: seq<Row>, n: nat, r: Row)
    requires n >= 1 && EndsWith(rows, r)
    ensures EndsWith(Newest(rows, n), r)
  {
  }

  /** The newest entry, if active, survives in any registry that holds anything at all. */
  lemma NewestSurvives(list: seq<Row>, limit: nat)
    requires list != [] && list[|list| - 1].active && limit >= 1
    ensures EndsWith(Survivors(list, limit), list[|list| - 1])
  {
    if |list| <= limit {
    } else if |list| - limit <= CountFinished(list) {
      EnoughFinished(list, limit, |list| - limit);
      LastStays(list, |list| - limit);
    } else {
      AllDropped(list);
      LastStays(list, CountFinished(list));
      TooFewFinished(list, limit, Actives(list));
      NewestEndsTheSame(Actives(list), limit, list[|list| - 1]);
    }
  }

  lemma {:induction false} NewestRetained(list: seq<Row>, now: nat)
    requires list != [] && Recent(list[|list| - 1], now)
    ensures Retained(list, now) != [] && Retained(list, now)[|Retained(list, now)| - 1] == list[|list| - 1]
  {
  }
}
