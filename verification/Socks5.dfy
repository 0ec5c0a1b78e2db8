/**
 The SOCKS5 front (sections 3 to 6 of RFC 1928) as a function of the byte stream a client
 sends, and the message grammar it accepts.
 */
module Socks5 {
  import opened Wrappers

  datatype Target =
    | V4(address: seq<Byte>, port: nat)
    | Domain(name: seq<Byte>, port: nat)
    | V6(address: seq<Byte>, port: nat)
  {
    predicate Valid() {
      && port < 0x1_0000
      && match this
         case V4(a, _) => |a| == 4
         case Domain(n, _) => 1 <= |n| <= 255
         case V6(a, _) => |a| == 16
    }
  }

  datatype Rejection =
    | InvalidGreeting
    | NoAcceptableMethod
    | InvalidRequest
    | UnsupportedCommand
    | InvalidV4
    | InvalidDomain
    | InvalidDomainLength
    | InvalidV6
    | UnsupportedAddressType
    | ReplyFailed

  const NO_METHOD: seq<Byte> := [5, 0xFF]
  const NO_AUTH: seq<Byte> := [5, 0]

  function Reply(code: Byte): seq<Byte> {
    [5, code, 0, 1, 0, 0, 0, 0, 0, 0]
  }

  /** The verdict, how much of the input it took, and the replies attempted in order. */
  datatype Parsed = Parsed(result: Result<Target, Rejection>, consumed: nat, replies: seq<seq<Byte>>)

  /** `t` is what is left of `s` after its first `n` bytes. */
  predicate IsRest(s: seq<Byte>, n: nat, t: seq<Byte>) {
    if n == 0 then s == t else s != [] && IsRest(s[1..], n - 1, t)
  }

  lemma {:induction false} IsRestIff(s: seq<Byte>, n: nat, t: seq<Byte>)
    ensures IsRest(s, n, t) <==> n <= |s| && t == s[n..]
  {
    if n > 0 && s != [] {
      IsRestIff(s[1..], n - 1, t);
      assert n <= |s| ==> s[1..][n - 1..] == s[n..];
    }
  }

  lemma {:induction false} RestOfRest(s: seq<Byte>, n: nat, t: seq<Byte>, m: nat, u: seq<Byte>)
    requires IsRest(s, n, t) && IsRest(t, m, u)
    ensures IsRest(s, n + m, u)
  {
    if n > 0 {
      RestOfRest(s[1..], n - 1, t, m, u);
    }
  }

  function Port(hi: Byte, lo: Byte): nat { hi * 256 + lo }

  /** What follows an address of `size` bytes: its port, or the rejection when it is cut short. */
  function ParseFixed(b: seq<Byte>, size: nat, short: Rejection): (p: Parsed)
    ensures p.consumed <= |b|
  {
    if |b| < size + 2 then Parsed(Err(short), |b|, [Reply(1)])
    else if size == 4 then Parsed(Ok(V4(b[..size], Port(b[size], b[size + 1]))), size + 2, [])
    else Parsed(Ok(V6(b[..size], Port(b[size], b[size + 1]))), size + 2, [])
  }

  function ParseDomain(b: seq<Byte>): (p: Parsed)
    ensures p.consumed <= |b|
  {
    if |b| == 0 then Parsed(Err(InvalidDomain), 0, [Reply(1)])
    else
      var n: nat := b[0];
      if n == 0 then Parsed(Err(InvalidDomainLength), 1, [Reply(1)])
      else if |b| < n + 3 then Parsed(Err(InvalidDomainLength), |b|, [Reply(1)])
      else Parsed(Ok(Domain(b[1..n + 1], Port(b[n + 1], b[n + 2]))), n + 3, [])
  }

  /** What follows the length byte of a domain. */
  function ParseName(b: seq<Byte>, n: nat): (p: Parsed)
    ensures p.consumed <= |b|
  {
    if |b| < n + 2 then Parsed(Err(InvalidDomainLength), |b|, [Reply(1)])
    else Parsed(Ok(Domain(b[..n], Port(b[n], b[n + 1]))), n + 2, [])
  }

  lemma NameFollowsLength(b: seq<Byte>, rest: seq<Byte>, p: Parsed)
    requires IsRest(b, 1, rest) && b[0] != 0 && ParseName(rest, b[0]) == p
    ensures ParseDomain(b) == p.(consumed := 1 + p.consumed)
  {
    IsRestIff(b, 1, rest);
    if |b| >= b[0] as nat + 3 {
      assert b[1..][..b[0]] == b[1..b[0] as nat + 1];
    }
  }

  /** The address part of the request; `writable` counts the replies the client still takes. */
  function ParseAddress(b: seq<Byte>, atyp: Byte, writable: nat): (p: Parsed)
    ensures p.consumed <= |b|
  {
    if atyp == 1 then ParseFixed(b, 4, InvalidV4)
    else if atyp == 3 then ParseDomain(b)
    else if atyp == 4 then ParseFixed(b, 16, InvalidV6)
    else Parsed(Err(if writable == 0 then ReplyFailed else UnsupportedAddressType), 0, [Reply(8)])
  }

  function ParseRequest(r: seq<Byte>, writable: nat): (p: Parsed)
    ensures p.consumed <= |r|
  {
    if |r| < 4 then Parsed(Err(InvalidRequest), |r|, [Reply(1)])
    else if r[0] != 5 then Parsed(Err(InvalidRequest), 4, [Reply(1)])
    else if r[1] != 1 then
      Parsed(Err(if writable == 0 then ReplyFailed else UnsupportedCommand), 4, [Reply(7)])
    else
      var p := ParseAddress(r[4..], r[3], writable);
      p.(consumed := 4 + p.consumed)
  }

  /** Either the greeting is turned away, or it took this many bytes and no-auth was agreed. */
  datatype Greeted = Refused(p: Parsed) | Agreed(length: nat)

  /** What follows the method count: the methods, and the choice among them. */
  function ParseMethods(s: seq<Byte>, n: nat, writable: nat): (g: Greeted)
    ensures match g
            case Refused(p) => p.result.Err? && p.consumed <= |s|
            case Agreed(m) => m == n <= |s| && writable >= 1
  {
    if |s| < n then Refused(Parsed(Err(InvalidGreeting), |s|, [NO_METHOD]))
    else if 0 !in s[..n] then Refused(Parsed(Err(NoAcceptableMethod), n, [NO_METHOD]))
    else if writable == 0 then Refused(Parsed(Err(ReplyFailed), n, [NO_AUTH]))
    else Agreed(n)
  }

  function Later(g: Greeted, n: nat): Greeted {
    match g
    case Refused(p) => Refused(p.(consumed := n + p.consumed))
    case Agreed(m) => Agreed(n + m)
  }

  lemma MethodsFollowCount(s: seq<Byte>, writable: nat, rest: seq<Byte>, g: Greeted)
    requires |s| >= 2 && s[0] == 5 && s[1] != 0 && IsRest(s, 2, rest) && ParseMethods(rest, s[1], writable) == g
    ensures ParseGreeting(s, writable) == Later(g, 2)
  {
    IsRestIff(s, 2, rest);
    if |s| >= s[1] as nat + 2 {
      assert s[2..][..s[1]] == s[2..s[1] as nat + 2];
    }
  }

  function ParseGreeting(s: seq<Byte>, writable: nat): (g: Greeted)
    ensures match g
            case Refused(p) => p.result.Err? && p.consumed <= |s|
            case Agreed(n) => 2 <= n <= |s| && writable >= 1
  {
    if |s| < 2 then Refused(Parsed(Err(InvalidGreeting), |s|, [NO_METHOD]))
    else
      var n: nat := s[1];
      if s[0] != 5 || n == 0 then Refused(Parsed(Err(InvalidGreeting), 2, [NO_METHOD]))
      else if |s| < n + 2 then Refused(Parsed(Err(InvalidGreeting), |s|, [NO_METHOD]))
      else if 0 !in s[2..n + 2] then Refused(Parsed(Err(NoAcceptableMethod), n + 2, [NO_METHOD]))
      else if writable == 0 then Refused(Parsed(Err(ReplyFailed), n + 2, [NO_AUTH]))
      else Agreed(n + 2)
  }

  /** The parse `q` of what follows `n` bytes and one reply. */
  function After(n: nat, reply: seq<Byte>, q: Parsed): Parsed {
    Parsed(q.result, n + q.consumed, [reply] + q.replies)
  }

  /** The front on a whole stream, when the client can still take `writable` replies. */
  function Parse(s: seq<Byte>, writable: nat): (p: Parsed)
    ensures p.consumed <= |s|
  {
    match ParseGreeting(s, writable)
    case Refused(p) => p
    case Agreed(n) => After(n, NO_AUTH, ParseRequest(s[n..], writable - 1))
  }

  lemma RequestFollowsGreeting(s: seq<Byte>, writable: nat, n: nat, rest: seq<Byte>, q: Parsed)
    requires ParseGreeting(s, writable) == Agreed(n) && IsRest(s, n, rest) && ParseRequest(rest, writable - 1) == q
    ensures Parse(s, writable) == After(n, NO_AUTH, q)
  {
    IsRestIff(s, n, rest);
  }

  lemma AddressFollowsHead(r: seq<Byte>, writable: nat, rest: seq<Byte>, p: Parsed)
    requires |r| >= 4 && r[0] == 5 && r[1] == 1 && IsRest(r, 4, rest) && ParseAddress(rest, r[3], writable) == p
    ensures ParseRequest(r, writable) == p.(consumed := 4 + p.consumed)
  {
    IsRestIff(r, 4, rest);
  }

  // ------------------------------------------------------------------ grammar

  function EncodeGreeting(methods: seq<Byte>): seq<Byte>
    requires |methods| <= 255
  {
    [5, |methods|] + methods
  }

  function EncodePort(port: nat): seq<Byte>
    requires port < 0x1_0000
  {
    [port / 256, port % 256]
  }

  function EncodeAddress(t: Target): seq<Byte>
    requires t.Valid()
  {
    match t
    case V4(a, port) => a + EncodePort(port)
    case Domain(n, port) => [|n|] + n + EncodePort(port)
    case V6(a, port) => a + EncodePort(port)
  }

  function AddressType(t: Target): Byte {
    match t case V4(_, _) => 1 case Domain(_, _) => 3 case V6(_, _) => 4
  }

  function EncodeConnect(t: Target, reserved: Byte): seq<Byte>
    requires t.Valid()
  {
    [5, 1, reserved, AddressType(t)] + EncodeAddress(t)
  }

  predicate OffersNoAuth(methods: seq<Byte>) { 1 <= |methods| <= 255 && 0 in methods }

  /** A complete conversation opening: a greeting that offers no-auth, then a CONNECT. */
  ghost predicate IsOpening(bytes: seq<Byte>, methods: seq<Byte>, reserved: Byte, t: Target) {
    OffersNoAuth(methods) && t.Valid() && bytes == EncodeGreeting(methods) + EncodeConnect(t, reserved)
  }

  // ------------------------------------------------------------------ results

  lemma FixedOfEncoding(a: seq<Byte>, port: nat, payload: seq<Byte>, short: Rejection)
    requires |a| == 4 || |a| == 16
    requires port < 0x1_0000
    ensures ParseFixed(a + EncodePort(port) + payload, |a|, short)
         == Parsed(Ok(if |a| == 4 then V4(a, port) else V6(a, port)), |a| + 2, [])
  {
    var b := a + EncodePort(port) + payload;
    assert b[..|a|] == a && b[|a|] == port / 256 && b[|a| + 1] == port % 256;
  }

  lemma DomainOfEncoding(name: seq<Byte>, port: nat, payload: seq<Byte>)
    requires 1 <= |name| <= 255 && port < 0x1_0000
    ensures ParseDomain([|name|] + name + EncodePort(port) + payload)
         == Parsed(Ok(Domain(name, port)), |name| + 3, [])
  {
    var n := |name|;
    var b := [n] + name + EncodePort(port) + payload;
    assert b[0] == n && b[1..n + 1] == name && b[n + 1] == port / 256 && b[n + 2] == port % 256;
  }

  lemma AddressOfEncoding(t: Target, payload: seq<Byte>, writable: nat)
    requires t.Valid()
    ensures ParseAddress(EncodeAddress(t) + payload, AddressType(t), writable)
         == Parsed(Ok(t), |EncodeAddress(t)|, [])
  {
    match t
    case V4(a, port) => FixedOfEncoding(a, port, payload, InvalidV4);
    case Domain(n, port) => DomainOfEncoding(n, port, payload);
    case V6(a, port) => FixedOfEncoding(a, port, payload, InvalidV6);
  }

  lemma RequestOfEncoding(t: Target, reserved: Byte, payload: seq<Byte>, writable: nat)
    requires t.Valid()
    ensures ParseRequest(EncodeConnect(t, reserved) + payload, writable)
         == Parsed(Ok(t), |EncodeConnect(t, reserved)|, [])
  {
    var r := EncodeConnect(t, reserved) + payload;
    assert r[0] == 5 && r[1] == 1 && r[3] == AddressType(t);
    assert r[4..] == EncodeAddress(t) + payload;
    AddressOfEncoding(t, payload, writable);
  }

  lemma GreetingOfEncoding(methods: seq<Byte>, rest: seq<Byte>, writable: nat)
    requires OffersNoAuth(methods) && writable >= 1
    ensures ParseGreeting(EncodeGreeting(methods) + rest, writable) == Agreed(|methods| + 2)
    ensures (EncodeGreeting(methods) + rest)[|methods| + 2..] == rest
  {
    var s := EncodeGreeting(methods) + rest;
    assert s[0] == 5 && s[1] == |methods|;
    assert s[2..|methods| + 2] == methods;
  }

  lemma ParseAfterGreeting(methods: seq<Byte>, rest: seq<Byte>, writable: nat, p: Parsed)
    requires OffersNoAuth(methods) && writable >= 1 && ParseRequest(rest, writable - 1) == p
    ensures Parse(EncodeGreeting(methods) + rest, writable) == After(|methods| + 2, NO_AUTH, p)
  {
    GreetingOfEncoding(methods, rest, writable);
    IsRestIff(EncodeGreeting(methods) + rest, |methods| + 2, rest);
    RequestFollowsGreeting(EncodeGreeting(methods) + rest, writable, |methods| + 2, rest, p);
  }

  /**
   Round trip: any encoded opening followed by any payload parses back to the same target,
   consuming the opening and not one byte of the payload.
   */
  lemma EncodedOpeningParses(methods: seq<Byte>, reserved: Byte, t: Target, payload: seq<Byte>, writable: nat)
    requires OffersNoAuth(methods) && t.Valid() && writable >= 1
    ensures var opening := EncodeGreeting(methods) + EncodeConnect(t, reserved);
      Parse(opening + payload, writable) == Parsed(Ok(t), |opening|, [NO_AUTH])
  {
    var greeting, connect := EncodeGreeting(methods), EncodeConnect(t, reserved);
    var p := Parsed(Ok(t), |connect|, []);
    RequestOfEncoding(t, reserved, payload, writable - 1);
    ParseAfterGreeting(methods, connect + payload, writable, p);
    OpeningThenPayload(greeting, connect, payload);
    assert [NO_AUTH] + [] == [NO_AUTH];
  }

  lemma OpeningThenPayload(greeting: seq<Byte>, connect: seq<Byte>, payload: seq<Byte>)
    ensures greeting + connect + payload == greeting + (connect + payload)
  {
  }

  lemma PortIsEncoding(hi: Byte, lo: Byte)
    ensures Port(hi, lo) < 0x1_0000 && EncodePort(Port(hi, lo)) == [hi, lo]
  {
  }

  lemma AcceptedFixed(b: seq<Byte>, size: nat, short: Rejection)
    requires size == 4 || size == 16
    requires ParseFixed(b, size, short).result.Ok?
    ensures var p := ParseFixed(b, size, short);
      && p.result.value.Valid() && AddressType(p.result.value) == (if size == 4 then 1 else 4)
      && p.consumed <= |b| && b[..p.consumed] == EncodeAddress(p.result.value)
  {
    PortIsEncoding(b[size], b[size + 1]);
    assert b[..size + 2] == b[..size] + [b[size], b[size + 1]];
  }

  lemma DomainBytes(b: seq<Byte>, n: nat)
    requires |b| >= n + 3 && b[0] == n
    ensures b[..n + 3] == [b[0]] + b[1..n + 1] + [b[n + 1], b[n + 2]]
  {
  }

  lemma AcceptedDomain(b: seq<Byte>)
    requires ParseDomain(b).result.Ok?
    ensures var p := ParseDomain(b);
      && p.result.value.Valid() && p.result.value.Domain?
      && p.consumed <= |b| && b[..p.consumed] == EncodeAddress(p.result.value)
  {
    var n: nat := b[0];
    PortIsEncoding(b[n + 1], b[n + 2]);
    DomainBytes(b, n);
  }

  lemma AcceptedAddress(b: seq<Byte>, atyp: Byte, writable: nat)
    requires ParseAddress(b, atyp, writable).result.Ok?
    ensures var p := ParseAddress(b, atyp, writable);
      && p.result.value.Valid() && AddressType(p.result.value) == atyp
      && b[..p.consumed] == EncodeAddress(p.result.value)
  {
    if atyp == 3 {
      AcceptedDomain(b);
    } else {
      AcceptedFixed(b, if atyp == 1 then 4 else 16, if atyp == 1 then InvalidV4 else InvalidV6);
    }
  }

  /** The first `at` bytes are a greeting that offers no-auth. */
  predicate Greets(s: seq<Byte>, at: nat) {
    2 <= at <= |s| && OffersNoAuth(s[2..at]) && s[..at] == EncodeGreeting(s[2..at])
  }

  /** What `q` consumed of `r` is a CONNECT request for its target. */
  predicate Connects(r: seq<Byte>, q: Parsed) {
    && q.result.Ok? && q.result.value.Valid() && q.consumed <= |r| && |r| > 2
    && r[..q.consumed] == EncodeConnect(q.result.value, r[2])
  }

  lemma AcceptedRequest(r: seq<Byte>, writable: nat, q: Parsed)
    requires ParseRequest(r, writable) == q && q.result.Ok?
    ensures Connects(r, q)
  {
    AcceptedAddress(r[4..], r[3], writable);
    var p := ParseAddress(r[4..], r[3], writable);
    Slices(r, 4, p.consumed);
    assert r[..4] == [r[0], r[1], r[2], r[3]];
  }

  lemma AgreedIsGreeting(s: seq<Byte>, writable: nat, n: nat)
    requires ParseGreeting(s, writable) == Agreed(n)
    ensures Greets(s, n)
  {
    assert s[..n] == [s[0], s[1]] + s[2..n];
  }

  lemma Slices(s: seq<Byte>, at: nat, n: nat)
    requires at + n <= |s|
    ensures s[..at + n] == s[..at] + s[at..][..n]
  {
  }

  lemma ParseSplits(s: seq<Byte>, writable: nat)
    requires Parse(s, writable).result.Ok?
    ensures writable >= 1 && ParseGreeting(s, writable).Agreed?
    ensures var at := ParseGreeting(s, writable).length;
      var q := ParseRequest(s[at..], writable - 1);
      q.result.Ok? && Parse(s, writable) == After(at, NO_AUTH, q)
  {
  }

  /** The two messages of an accepted stream, found one after the other. */
  lemma AcceptedParts(s: seq<Byte>, writable: nat) returns (at: nat, q: Parsed)
    requires Parse(s, writable).result.Ok?
    ensures writable >= 1 && Greets(s, at) && Connects(s[at..], q) && Parse(s, writable) == After(at, NO_AUTH, q)
  {
    ParseSplits(s, writable);
    at := ParseGreeting(s, writable).length;
    q := ParseRequest(s[at..], writable - 1);
    AgreedIsGreeting(s, writable, at);
    AcceptedRequest(s[at..], writable - 1, q);
  }

  lemma JoinParts(s: seq<Byte>, at: nat, q: Parsed)
    requires Greets(s, at) && Connects(s[at..], q)
    ensures at + q.consumed <= |s| && at + 2 < |s|
    ensures IsOpening(s[..at + q.consumed], s[2..at], s[at + 2], q.result.value)
  {
    assert s[at..][2] == s[at + 2];
    Slices(s, at, q.consumed);
  }

  /**
   The front accepts nothing else: whatever it consumed on success is an encoded opening
   for the target it reports.
   */
  lemma AcceptedStreamIsAnOpening(s: seq<Byte>, writable: nat) returns (methods: seq<Byte>, reserved: Byte)
    requires Parse(s, writable).result.Ok?
    ensures var p := Parse(s, writable);
      writable >= 1 && p.consumed <= |s| && IsOpening(s[..p.consumed], methods, reserved, p.result.value)
  {
    var at, q := AcceptedParts(s, writable);
    JoinParts(s, at, q);
    methods, reserved := s[2..at], s[at + 2];
  }

  /** Acceptance, target and length decided by the grammar alone, in both directions. */
  lemma ParseDecidesTheGrammar(s: seq<Byte>, writable: nat, n: nat, t: Target)
    requires n <= |s| && writable >= 1
    ensures (Parse(s, writable).result == Ok(t) && Parse(s, writable).consumed == n)
       <==> exists methods, reserved :: IsOpening(s[..n], methods, reserved, t)
  {
    if Parse(s, writable).result == Ok(t) && Parse(s, writable).consumed == n {
      var methods, reserved := AcceptedStreamIsAnOpening(s, writable);
    } else if exists methods, reserved :: IsOpening(s[..n], methods, reserved, t) {
      var methods, reserved :| IsOpening(s[..n], methods, reserved, t);
      OpeningPrefixParses(s, writable, n, methods, reserved, t);
    }
  }

  lemma OpeningPrefixParses(s: seq<Byte>, writable: nat, n: nat, methods: seq<Byte>, reserved: Byte, t: Target)
    requires n <= |s| && writable >= 1 && IsOpening(s[..n], methods, reserved, t)
    ensures Parse(s, writable) == Parsed(Ok(t), n, [NO_AUTH])
  {
    EncodedOpeningParses(methods, reserved, t, s[n..], writable);
    assert s[..n] + s[n..] == s;
  }
}
