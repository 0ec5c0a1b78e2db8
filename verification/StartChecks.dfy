/** What has to be in order before a proxy thread is started, and what the thread is given. */
module StartChecks {
  import opened Wrappers
  import opened Addresses

  type Key = string
  type Trust = string

  /**
   The configuration a start reads: the listening address and the key if they can be resolved,
   the node list, and how node addresses, their certificates and the TUN settings resolve.
   */
  datatype Settings = Settings(
    listen: Option<SocketAddr>, key: Option<Key>, nodes: seq<string>,
    parse: string -> Option<SocketAddr>, trust: seq<string> -> Option<Trust>, tun: seq<SocketAddr> -> bool)

  datatype Launch = Launch(listen: SocketAddr, key: Key, nodes: seq<SocketAddr>, trust: Trust)

  /** The entries of the node list that are addresses, in order. */
  function Valid(nodes: seq<string>, parse: string -> Option<SocketAddr>): (v: seq<string>)
    ensures forall s :: s in v <==> s in nodes && parse(s).Some?
  {
    if nodes == [] then []
    else
      var init, last := nodes[..|nodes| - 1], nodes[|nodes| - 1];
      assert nodes == init + [last];
      Valid(init, parse) + if parse(last).Some? then [last] else []
  }

  function Parsed(names: seq<string>, parse: string -> Option<SocketAddr>): seq<SocketAddr>
    requires forall s <- names :: parse(s).Some?
  {
    seq(|names|, i requires 0 <= i < |names| => parse(names[i]).value)
  }

  /** The checks of a start, in the order they are made. */
  datatype Refusal = BadListenAddress | NoKey | NoValidNode | NoTrust | BadTun

  const CHECKS := [BadListenAddress, NoKey, NoValidNode, NoTrust, BadTun]

  /** One check by itself. */
  predicate Holds(c: Settings, check: Refusal) {
    var names := Valid(c.nodes, c.parse);
    match check
    case BadListenAddress => c.listen.Some?
    case NoKey => c.key.Some?
    case NoValidNode => names != []
    case NoTrust => c.trust(names).Some?
    case BadTun => c.tun(Parsed(names, c.parse))
  }

  /** The first `k` checks hold. */
  predicate HoldUpTo(c: Settings, k: nat)
    requires k <= |CHECKS|
  {
    forall i :: 0 <= i < k ==> Holds(c, CHECKS[i])
  }

  predicate Launchable(c: Settings) { HoldUpTo(c, |CHECKS|) }

  /** This check fails, and none before it does. */
  predicate FailsFirst(c: Settings, check: Refusal) {
    exists k :: 0 <= k < |CHECKS| && CHECKS[k] == check && !Holds(c, check) && HoldUpTo(c, k)
  }

  /** The valid entries of the node list, as they stand and parsed, one for one. */
  method CollectNodes(nodes: seq<string>, parse: string -> Option<SocketAddr>)
    returns (names: seq<string>, addrs: seq<SocketAddr>)
    ensures names == Valid(nodes, parse) && addrs == Parsed(names, parse)
  {
    names, addrs := [], [];
    for i := 0 to |nodes|
      invariant names == Valid(nodes[..i], parse) && addrs == Parsed(names, parse)
    {
      assert nodes[..i + 1][..i] == nodes[..i];
      var addr := parse(nodes[i]);
      if addr.Some? {
        names, addrs := names + [nodes[i]], addrs + [addr.value];
      }
    }
    assert nodes[..|nodes|] == nodes;
  }

  /** The checks of a start: the first that fails refuses it, and is what the user is told. */
  method Check(c: Settings) returns (launch: Result<Launch, Refusal>)
    ensures launch.Ok? <==> Launchable(c)
    ensures launch.Err? ==> FailsFirst(c, launch.error)
    ensures launch.Ok? ==>
              var names := Valid(c.nodes, c.parse);
              && c.listen == Some(launch.value.listen) && c.key == Some(launch.value.key)
              && launch.value.nodes == Parsed(names, c.parse) && c.trust(names) == Some(launch.value.trust)
  {
    if c.listen.None? {
      FirstFailure(c, 0);
      return Err(BadListenAddress);
    }
    if c.key.None? {
      FirstFailure(c, 1);
      return Err(NoKey);
    }
    var names, addrs := CollectNodes(c.nodes, c.parse);
    if addrs == [] {
      FirstFailure(c, 2);
      return Err(NoValidNode);
    }
    var trust := c.trust(names);
    if trust.None? {
      FirstFailure(c, 3);
      return Err(NoTrust);
    }
    if !c.tun(addrs) {
      FirstFailure(c, 4);
      return Err(BadTun);
    }
    launch := Ok(Launch(c.listen.value, c.key.value, addrs, trust.value));
  }

  lemma FirstFailure(c: Settings, k: nat)
    requires k < |CHECKS| && HoldUpTo(c, k) && !Holds(c, CHECKS[k])
    ensures FailsFirst(c, CHECKS[k]) && !Launchable(c)
  {
    assert HoldUpTo(c, k);
  }

  /** Which check fails first is a function of the settings. */
  lemma OneFailsFirst(c: Settings, a: Refusal, b: Refusal)
    requires FailsFirst(c, a) && FailsFirst(c, b)
    ensures a == b
  {
    var i :| 0 <= i < |CHECKS| && CHECKS[i] == a && HoldUpTo(c, i);
    var j :| 0 <= j < |CHECKS| && CHECKS[j] == b && HoldUpTo(c, j);
  }

  lemma {:induction false} ValidOfSum(a: seq<string>, b: seq<string>, parse: string -> Option<SocketAddr>)
    ensures Valid(a + b, parse) == Valid(a, parse) + Valid(b, parse)
  {
    if b == [] {
      assert a + b == a;
    } else {
      var init := b[..|b| - 1];
      assert (a + b)[..|a + b| - 1] == a + init;
      ValidOfSum(a, init, parse);
    }
  }

  lemma {:induction false} NoneValid(junk: seq<string>, parse: string -> Option<SocketAddr>)
    requires forall s <- junk :: parse(s).None?
    ensures Valid(junk, parse) == []
  {
    if junk != [] {
      var init, last := junk[..|junk| - 1], junk[|junk| - 1];
      assert last in junk && junk == init + [last];
      NoneValid(init, parse);
    }
  }

  lemma JunkIsSkipped(before: seq<string>, junk: seq<string>, after: seq<string>, parse: string -> Option<SocketAddr>)
    requires forall s <- junk :: parse(s).None?
    ensures Valid(before + junk + after, parse) == Valid(before + after, parse)
  {
    NoneValid(junk, parse);
    ValidOfSum(before + junk, after, parse);
    ValidOfSum(before, junk, parse);
    ValidOfSum(before, after, parse);
    assert Valid(before, parse) + [] == Valid(before, parse);
  }

  /** Entries that are no addresses change nothing about a start, wherever they stand. */
  lemma InvalidNodesAreSkipped(c: Settings, before: seq<string>, junk: seq<string>, after: seq<string>, check: Refusal)
    requires forall s <- junk :: c.parse(s).None?
    ensures Holds(c.(nodes := before + junk + after), check) <==> Holds(c.(nodes := before + after), check)
    ensures Launchable(c.(nodes := before + junk + after)) <==> Launchable(c.(nodes := before + after))
  {
    var long, short := c.(nodes := before + junk + after), c.(nodes := before + after);
    JunkIsSkipped(before, junk, after, c.parse);
    assert forall any :: Holds(long, any) <==> Holds(short, any);
  }

  lemma FirstToFail(c: Settings, k: nat)
    requires k < |CHECKS|
    ensures FailsFirst(c, CHECKS[k]) <==> HoldUpTo(c, k) && !Holds(c, CHECKS[k])
  {
  }

  lemma NoneIsValid(c: Settings)
    ensures Holds(c, NoValidNode) <==> exists s :: s in c.nodes && c.parse(s).Some?
  {
    var names := Valid(c.nodes, c.parse);
    if names != [] {
      assert names[0] in names;
    }
  }

  /**
   Which refusal is shown: a missing address before a missing key, that before a list without a
   valid node, that before a missing trust for the valid nodes, and all before TUN.
   */
  lemma RefusalsInOrder(c: Settings)
    ensures FailsFirst(c, BadListenAddress) <==> c.listen.None?
    ensures FailsFirst(c, NoKey) <==> c.listen.Some? && c.key.None?
    ensures FailsFirst(c, NoValidNode) <==>
              c.listen.Some? && c.key.Some? && !exists s :: s in c.nodes && c.parse(s).Some?
    ensures FailsFirst(c, NoTrust) <==>
              && c.listen.Some? && c.key.Some? && (exists s :: s in c.nodes && c.parse(s).Some?)
              && c.trust(Valid(c.nodes, c.parse)).None?
  {
    NoneIsValid(c);
    FirstToFail(c, 0);
    FirstToFail(c, 1);
    FirstToFail(c, 2);
    FirstToFail(c, 3);
    UpTo(c);
  }

  lemma UpTo(c: Settings)
    ensures HoldUpTo(c, 0) && (HoldUpTo(c, 1) <==> c.listen.Some?)
    ensures HoldUpTo(c, 2) <==> c.listen.Some? && c.key.Some?
    ensures HoldUpTo(c, 3) <==> c.listen.Some? && c.key.Some? && Holds(c, NoValidNode)
  {
    assert CHECKS[0] == BadListenAddress && CHECKS[1] == NoKey && CHECKS[2] == NoValidNode;
  }
}
