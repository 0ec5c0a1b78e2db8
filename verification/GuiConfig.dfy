/**
 The configuration object of the GUI and the operations that merge node lists into it in
 place, each proved to compute what module Claims and ClaimRuns say.
 */
module GuiConfig {
  import opened Wrappers
  import opened Claims
  import opened ClaimRuns
  import opened Decimals
  import opened Renaming

  /** A parsed link; `key` and `cert` are there if it carries them and they decode. */
  datatype ShareLink = ShareLink(address: string, port: nat, key: Option<string>, cert: Option<string>)

  function KeyOf(link: ShareLink): Option<string> { link.key }

  function CertOf(link: ShareLink): Option<string> { link.cert }

  /** What the first link that carries any carries. */
  function FirstCarried(links: seq<ShareLink>, of: ShareLink -> Option<string>): (r: Option<string>)
    ensures r.None? <==> forall l <- links :: of(l).None?
    ensures r.Some? ==>
              exists k :: 0 <= k < |links| && of(links[k]) == r && forall j :: 0 <= j < k ==> of(links[j]).None?
  {
    if links == [] then None
    else if of(links[0]).Some? then of(links[0])
    else
      var rest := FirstCarried(links[1..], of);
      assert links == [links[0]] + links[1..];
      rest
  }

  function Endpoint(link: ShareLink): Addr { link.address + ":" + Decimal(link.port) }

  function Endpoints(links: seq<ShareLink>): seq<Addr> {
    if links == [] then [] else Endpoints(links[..|links| - 1]) + [Endpoint(links[|links| - 1])]
  }

  const LOCAL_TEXT_SOURCE_PREFIX := "hydra-text://"

  /** What the link parser makes of a text: the links it found and the lines it could not read. */
  datatype Parsed = Parsed(links: seq<ShareLink>, badLines: nat)

  datatype ImportError = NoName | NameTaken | NoText | NoLinks(badLines: nat) | NothingClaimed

  /** What an import reports: what it did to the list, and the credentials its links carry. */
  datatype ImportResult = ImportResult(
    added: seq<Addr>, removed: seq<Addr>, nodeCount: nat, badLines: nat, authKey: Option<string>, cert: Option<string>)

  /** The report of an import that claimed `claims`. */
  function Report(claims: seq<Addr>, parsed: Parsed): ImportResult {
    ImportResult(claims, [], |claims|, parsed.badLines,
                 FirstCarried(parsed.links, KeyOf), FirstCarried(parsed.links, CertOf))
  }

  /** Why an import is refused, if it is: the checks in the order they are made. */
  function Refusal(cfg: Config, name: string, text: string, parsed: Parsed): Option<ImportError> {
    if name == "" then Some(NoName)
    else if Taken(cfg.subs, name) then Some(NameTaken)
    else if text == "" then Some(NoText)
    else if parsed.links == [] then Some(NoLinks(parsed.badLines))
    else if Claimable(cfg, Endpoints(parsed.links)) == [] then Some(NothingClaimed)
    else None
  }

  /** First occurrences of the endpoints of the links. */
  method Fetched(links: seq<ShareLink>) returns (newAddrs: seq<Addr>)
    ensures newAddrs == Dedup(Endpoints(links))
  {
    newAddrs := [];
    for k := 0 to |links|
      invariant newAddrs == Dedup(Endpoints(links[..k]))
    {
      var addr := Endpoint(links[k]);
      assert links[..k + 1][..k] == links[..k];
      assert Endpoints(links[..k + 1]) == Endpoints(links[..k]) + [addr];
      assert Endpoints(links[..k + 1])[..|Endpoints(links[..k + 1])| - 1] == Endpoints(links[..k]);
      if addr !in newAddrs {
        newAddrs := newAddrs + [addr];
      }
    }
    assert links[..|links|] == links;
  }

  class GuiConfig {
    var nodeAddrs: seq<Addr>
    var subs: seq<Sub>
    var names: map<Addr, string>
    var certs: map<Addr, string>
    /** The credentials every node falls back to. */
    var authKey: string
    var certDer: string

    function Value(): Config
      reads this`nodeAddrs, this`subs, this`names, this`certs
    {
      Config(nodeAddrs, subs, names, certs)
    }

    /** Forget a node's name and certificate. */
    method RemoveNodeState(addr: Addr)
      modifies this`names, this`certs
      ensures names == old(names) - {addr} && certs == old(certs) - {addr}
    {
      names := names - {addr};
      certs := certs - {addr};
    }

    /** Take nodes out of the list, and their state with them. */
    method DropNodes(gone: seq<Addr>)
      modifies this`nodeAddrs, this`names, this`certs
      ensures nodeAddrs == Minus(old(nodeAddrs), ToSet(gone))
      ensures names == old(names) - ToSet(gone) && certs == old(certs) - ToSet(gone)
    {
      nodeAddrs := Minus(nodeAddrs, ToSet(gone));
      for k := 0 to |gone|
        invariant nodeAddrs == Minus(old(nodeAddrs), ToSet(gone))
        invariant names == old(names) - ToSet(gone[..k]) && certs == old(certs) - ToSet(gone[..k])
      {
        RemoveNodeState(gone[k]);
        assert gone[..k + 1] == gone[..k] + [gone[k]];
        ToSetOfSum(gone[..k], [gone[k]]);
      }
      assert gone[..|gone|] == gone;
    }

    /** Append what is neither listed nor claimed by others. */
    method AppendNew(newAddrs: seq<Addr>, others: set<Addr>) returns (added: seq<Addr>)
      requires Distinct(newAddrs)
      modifies this`nodeAddrs
      ensures added == Minus(newAddrs, ToSet(old(nodeAddrs)) + others)
      ensures nodeAddrs == old(nodeAddrs) + added
    {
      ghost var drop := ToSet(nodeAddrs) + others;
      added := [];
      for k := 0 to |newAddrs|
        invariant added == Minus(newAddrs[..k], drop)
        invariant nodeAddrs == old(nodeAddrs) + added
      {
        var a := newAddrs[k];
        assert newAddrs[..k + 1][..k] == newAddrs[..k];
        MinusIsPart(newAddrs[..k], drop, a);
        assert a in nodeAddrs <==> a in old(nodeAddrs);
        if a in nodeAddrs || a in others {
          continue;
        }
        nodeAddrs := nodeAddrs + [a];
        added := added + [a];
      }
      assert newAddrs[..|newAddrs|] == newAddrs;
    }

    /** The new claims: what is listed by now and neither manual nor claimed by others. */
    method CollectClaims(newAddrs: seq<Addr>, manual: set<Addr>, others: set<Addr>) returns (claimed: seq<Addr>)
      requires forall a <- newAddrs :: a in nodeAddrs || a in others
      ensures claimed == Minus(newAddrs, manual + others)
    {
      claimed := [];
      for k := 0 to |newAddrs|
        invariant claimed == Minus(newAddrs[..k], manual + others)
      {
        var a := newAddrs[k];
        assert newAddrs[..k + 1][..k] == newAddrs[..k];
        assert a in newAddrs;
        if a in nodeAddrs && a !in manual && a !in others {
          claimed := claimed + [a];
        }
      }
      assert newAddrs[..|newAddrs|] == newAddrs;
    }

    /** Replace the nodes of one subscription by the ones it just fetched. */
    method ApplySubscriptionNodeUpdate(name: string, links: seq<ShareLink>, now: nat)
      returns (added: seq<Addr>, removed: seq<Addr>)
      modifies this`nodeAddrs, this`subs, this`names, this`certs
      ensures IndexOf(old(subs), name).None? ==> added == removed == [] && Value() == old(Value())
      ensures IndexOf(old(subs), name).Some? ==>
                var i, fetched := IndexOf(old(subs), name).value, Endpoints(links);
                && added == Added(old(Value()), i, fetched) && removed == Removed(old(Value()), i, fetched)
                && Value() == Updated(old(Value()), i, fetched, now)
    {
      var found := IndexOf(subs, name);
      if found.None? {
        return [], [];
      }
      var idx := found.value;
      ghost var before, fetched := Value(), Endpoints(links);
      var newAddrs := Fetched(links);
      DedupIsSet(fetched);
      var manual := Manual(Value());
      var others := Others(subs, idx);
      removed := Minus(subs[idx].nodes, ToSet(newAddrs) + manual + others);
      DropNodes(removed);
      added := AppendNew(newAddrs, others);
      AllPlaced(newAddrs, Kept(before, idx, fetched), others);
      var claimed := CollectClaims(newAddrs, manual, others);
      subs := subs[idx := subs[idx].(nodes := claimed, lastUpdated := Some(now))];
    }

    /**
     Make a named group from pasted links. Whatever the reason for a refusal, the
     configuration is then exactly what it was.
     */
    method ImportShareLinksAsGroup(name: string, text: string, trim: string -> string, parse: string -> Parsed,
                                   now: nat)
      returns (r: Result<ImportResult, ImportError>)
      modifies this`nodeAddrs, this`subs, this`names, this`certs
      ensures var refusal := Refusal(old(Value()), trim(name), trim(text), parse(trim(text)));
              && (refusal.Some? ==> r == Err(refusal.value) && Value() == old(Value()))
              && (refusal.None? ==>
                    var fetched := Endpoints(parse(trim(text)).links);
                    var claims := Claimable(old(Value()), fetched);
                    && Value() == Filled(old(Value()), trim(name), LOCAL_TEXT_SOURCE_PREFIX + trim(text), fetched, now)
                    && r == Ok(Report(claims, parse(trim(text)))))
    {
      var group := trim(name);
      if group == "" {
        return Err(NoName);
      }
      if Taken(subs, group) {
        return Err(NameTaken);
      }
      var body := trim(text);
      if body == "" {
        return Err(NoText);
      }
      var parsed := parse(body);
      if parsed.links == [] {
        return Err(NoLinks(parsed.badLines));
      }
      r := FillGroup(group, LOCAL_TEXT_SOURCE_PREFIX + body, parsed, now);
    }

    /** Add the group, merge the links into it, and take it back when it claimed nothing. */
    method FillGroup(group: string, source: string, parsed: Parsed, now: nat)
      returns (r: Result<ImportResult, ImportError>)
      requires !Taken(subs, group)
      modifies this`nodeAddrs, this`subs, this`names, this`certs
      ensures var fetched := Endpoints(parsed.links);
              var claims := Claimable(old(Value()), fetched);
              && Value() == (if claims == [] then old(Value()) else Filled(old(Value()), group, source, fetched, now))
              && r == if claims == [] then Err(NothingClaimed) else Ok(Report(claims, parsed))
    {
      ghost var before, fetched := Value(), Endpoints(parsed.links);
      PushedFacts(before, group, source, fetched);
      subs := subs + [Sub(group, source, None, [])];
      var added, removed := ApplySubscriptionNodeUpdate(group, parsed.links, now);
      FilledIs(before, group, source, fetched, now);
      ImportIsAllOrNothing(before, group, source, fetched, now);
      LastOfName(before.subs, subs, group);
      var nodeCount := |subs[IndexOf(subs, group).value].nodes|;
      if nodeCount == 0 {
        subs := WithoutNamed(subs, group);
        return Err(NothingClaimed);
      }
      var authKey, cert := FirstCarried(parsed.links, KeyOf), FirstCarried(parsed.links, CertOf);
      return Ok(ImportResult(added, removed, nodeCount, parsed.badLines, authKey, cert));
    }

    /** Remove a subscription and the nodes that only it claims. */
    method DeleteSubscription(idx: nat) returns (removed: seq<Addr>)
      modifies this`nodeAddrs, this`subs, this`names, this`certs
      ensures idx >= |old(subs)| ==> removed == [] && Value() == old(Value())
      ensures idx < |old(subs)| ==> removed == Dropped(old(Value()), idx) && Value() == Deleted(old(Value()), idx)
    {
      if idx >= |subs| {
        return [];
      }
      var sub := subs[idx];
      subs := subs[..idx] + subs[idx + 1..];
      var othersOwned := Owned(subs);
      removed := Minus(sub.nodes, othersOwned);
      DropNodes(removed);
    }

    /** Give up the claim on an address, in the first subscription that has it. */
    method SaveSubscriptionNodeAsManual(addr: Addr) returns (moved: bool)
      modifies this`subs
      ensures subs == Released(old(subs), addr)
      ensures moved <==> addr in Owned(old(subs))
    {
      for i := 0 to |subs|
        invariant subs == old(subs)
        invariant forall j :: 0 <= j < i ==> addr !in subs[j].nodes
      {
        if addr in subs[i].nodes {
          ReleasedAt(subs, addr, i);
          subs := subs[i := subs[i].(nodes := WithoutFirst(subs[i].nodes, addr))];
          return true;
        }
      }
      NothingReleased(subs, addr);
      return false;
    }

    /** Move a node to a new address, in the list, in every claim, and with its state. */
    method RenameNode(from: Addr, to: Addr)
      modifies this`nodeAddrs, this`subs, this`names, this`certs
      ensures Value() == Renamed(old(Value()), from, to)
    {
      if from == to {
        return;
      }
      ghost var list := nodeAddrs;
      for i := 0 to |nodeAddrs|
        invariant |nodeAddrs| == |list| && subs == old(subs) && names == old(names) && certs == old(certs)
        invariant forall j :: 0 <= j < |list| ==> nodeAddrs[j] == if j < i then Swap(list[j], from, to) else list[j]
      {
        if nodeAddrs[i] == from {
          nodeAddrs := nodeAddrs[i := to];
        }
      }
      assert nodeAddrs == RenameIn(list, from, to);
      RenameClaims(from, to);
      MoveState(from, to);
    }

    method RenameClaims(from: Addr, to: Addr)
      modifies this`subs
      ensures subs == RenameSubs(old(subs), from, to)
    {
      ghost var before := subs;
      for i := 0 to |subs|
        invariant |subs| == |before|
        invariant forall j :: 0 <= j < |before| ==>
                    subs[j] == if j < i then RenameSub(before[j], from, to) else before[j]
      {
        subs := subs[i := subs[i].(nodes := RenameIn(subs[i].nodes, from, to))];
      }
    }

    /** Name and certificate go with the address, unless the new one has its own. */
    method MoveState(from: Addr, to: Addr)
      requires from != to
      modifies this`names, this`certs
      ensures names == MoveKey(old(names), from, to) && certs == MoveKey(old(certs), from, to)
    {
      if from in names {
        var name := names[from];
        names := names - {from};
        if to !in names {
          names := names[to := name];
        }
      }
      if from in certs {
        var path := certs[from];
        certs := certs - {from};
        if to !in certs {
          certs := certs[to := path];
        }
      }
    }
  }

  /** After appending, every new address is listed or claimed by others. */
  lemma AllPlaced(newAddrs: seq<Addr>, kept: seq<Addr>, others: set<Addr>)
    ensures forall a <- newAddrs :: a in kept + Minus(newAddrs, ToSet(kept) + others) || a in others
  {
    forall a <- newAddrs ensures a in kept + Minus(newAddrs, ToSet(kept) + others) || a in others {
      MinusIsPart(newAddrs, ToSet(kept) + others, a);
    }
  }

  /** A fresh name is found where it was just appended. */
  lemma LastOfName(before: seq<Sub>, subs: seq<Sub>, name: string)
    requires !Taken(before, name)
    requires |subs| == |before| + 1 && subs[..|before|] == before && subs[|before|].name == name
    ensures IndexOf(subs, name) == Some(|before|)
  {
  }

  lemma PushedFacts(cfg: Config, name: string, source: string, fetched: seq<Addr>)
    requires !Taken(cfg.subs, name)
    ensures var pushed := Pushed(cfg, name, source);
            && IndexOf(pushed.subs, name) == Some(|cfg.subs|)
            && Removed(pushed, |cfg.subs|, fetched) == []
            && Added(pushed, |cfg.subs|, fetched) == Claimable(cfg, fetched)
  {
    var pushed := Pushed(cfg, name, source);
    LastOfName(cfg.subs, pushed.subs, name);
    PushedOwnsTheSame(cfg, name, source);
    NothingRemoved(pushed, |cfg.subs|, fetched);
    MinusAgrees(Dedup(fetched), ToSet(cfg.nodeAddrs) + Owned(cfg.subs), Manual(cfg) + Owned(cfg.subs));
  }

  lemma {:induction false} NothingReleased(subs: seq<Sub>, a: Addr)
    requires forall j :: 0 <= j < |subs| ==> a !in subs[j].nodes
    ensures Released(subs, a) == subs
  {
    if subs != [] {
      NothingReleased(subs[1..], a);
    }
  }

  // ---------------------------------------------------------- what an import goes by

  /** The endpoint of a link tells its port. */
  lemma EndpointTellsPort(link: ShareLink, other: ShareLink)
    requires link.address == other.address
    ensures Endpoint(link) == Endpoint(other) <==> link.port == other.port
    ensures link.port == 443 ==> Endpoint(link) == link.address + ":443"
  {
    if Endpoint(link) == Endpoint(other) {
      var stem := link.address + ":";
      assert Endpoint(link)[|stem|..] == Decimal(link.port) && Endpoint(other)[|stem|..] == Decimal(other.port);
      DecimalIsInjective(link.port, other.port);
    }
    assert Decimal(443) == "443" by {
      assert Decimal(4) == "4" && Decimal(44) == "44";
    }
  }

  /** An address some link names that is neither listed nor claimed. */
  predicate NamesNew(cfg: Config, links: seq<ShareLink>, k: nat) {
    && k < |links| && Endpoint(links[k]) !in cfg.nodeAddrs
    && forall i :: 0 <= i < |cfg.subs| ==> Endpoint(links[k]) !in cfg.subs[i].nodes
  }

  lemma {:induction false} EndpointsMembers(links: seq<ShareLink>, a: Addr)
    ensures a in Endpoints(links) <==> exists k :: 0 <= k < |links| && Endpoint(links[k]) == a
  {
    if links != [] {
      var init, last := links[..|links| - 1], links[|links| - 1];
      EndpointsMembers(init, a);
      assert links == init + [last];
      if a in Endpoints(init) {
        var k :| 0 <= k < |init| && Endpoint(init[k]) == a;
        assert links[k] == init[k];
      }
    }
  }

  lemma NothingClaimable(cfg: Config, links: seq<ShareLink>)
    ensures Claimable(cfg, Endpoints(links)) == [] <==> !exists k: nat :: NamesNew(cfg, links, k)
  {
    var fetched := Endpoints(links);
    var drop := Manual(cfg) + Owned(cfg.subs);
    DedupIsSet(fetched);
    if Claimable(cfg, fetched) != [] {
      var a := Claimable(cfg, fetched)[0];
      MinusIsPart(Dedup(fetched), drop, a);
      assert a in ToSet(Dedup(fetched));
      EndpointsMembers(links, a);
      var k :| 0 <= k < |links| && Endpoint(links[k]) == a;
      assert NamesNew(cfg, links, k);
    }
    forall k: nat | NamesNew(cfg, links, k) ensures Claimable(cfg, fetched) != [] {
      EndpointsMembers(links, Endpoint(links[k]));
      assert Endpoint(links[k]) in ToSet(Dedup(fetched));
      MinusIsPart(Dedup(fetched), drop, Endpoint(links[k]));
    }
  }

  /** Why an import is refused: each reason only when none before it applies. */
  lemma RefusalsInOrder(cfg: Config, name: string, text: string, parsed: Parsed)
    ensures var r := Refusal(cfg, name, text, parsed);
            var taken := exists i :: 0 <= i < |cfg.subs| && cfg.subs[i].name == name;
            && (r == Some(NoName) <==> |name| == 0)
            && (r == Some(NameTaken) <==> |name| > 0 && taken)
            && (r == Some(NoText) <==> |name| > 0 && !taken && |text| == 0)
            && (r == Some(NoLinks(parsed.badLines)) <==> |name| > 0 && !taken && |text| > 0 && |parsed.links| == 0)
            && (r == Some(NothingClaimed) <==>
                  && |name| > 0 && !taken && |text| > 0 && |parsed.links| > 0
                  && !exists k: nat :: NamesNew(cfg, parsed.links, k))
  {
    NothingClaimable(cfg, parsed.links);
  }

  /** `r` is the key of the first link that carries one. */
  ghost predicate IsFirstKey(links: seq<ShareLink>, r: Option<string>) {
    if r.None? then forall l <- links :: l.key.None?
    else exists k :: 0 <= k < |links| && links[k].key == r && forall j :: 0 <= j < k ==> links[j].key.None?
  }

  ghost predicate IsFirstCert(links: seq<ShareLink>, r: Option<string>) {
    if r.None? then forall l <- links :: l.cert.None?
    else exists k :: 0 <= k < |links| && links[k].cert == r && forall j :: 0 <= j < k ==> links[j].cert.None?
  }

  lemma FirstKeyIsCarried(links: seq<ShareLink>)
    ensures IsFirstKey(links, FirstCarried(links, KeyOf))
  {
    var r := FirstCarried(links, KeyOf);
    assert forall l: ShareLink :: KeyOf(l) == l.key;
    if r.Some? {
      var k :| 0 <= k < |links| && KeyOf(links[k]) == r && forall j :: 0 <= j < k ==> KeyOf(links[j]).None?;
      assert links[k].key == r;
    }
  }

  lemma FirstCertIsCarried(links: seq<ShareLink>)
    ensures IsFirstCert(links, FirstCarried(links, CertOf))
  {
    var r := FirstCarried(links, CertOf);
    assert forall l: ShareLink :: CertOf(l) == l.cert;
    if r.Some? {
      var k :| 0 <= k < |links| && CertOf(links[k]) == r && forall j :: 0 <= j < k ==> CertOf(links[j]).None?;
      assert links[k].cert == r;
    }
  }

  /** What an import reports: its claims and how many, lines it could not read, and the credentials carried first. */
  lemma ReportTells(claims: seq<Addr>, parsed: Parsed)
    ensures var r := Report(claims, parsed);
            && r.added == claims && r.removed == [] && r.nodeCount == |claims| && r.badLines == parsed.badLines
            && IsFirstKey(parsed.links, r.authKey) && IsFirstCert(parsed.links, r.cert)
  {
    FirstKeyIsCarried(parsed.links);
    FirstCertIsCarried(parsed.links);
  }
}
