/**
 Every way the SOCKS5 front turns a client away, read off the bytes it sent: why, what it is told
 in so many bytes, and how much of its stream is gone.
 */
module SocksRefusals {
  import opened Wrappers
  import opened Socks5
  import Front = ProxyFront

  datatype Flaw =
    | GreetingCut | GreetingWrong | MethodsCut | NoMethodOffered | GreetingUnanswered
    | RequestCut | RequestWrong | NotConnect
    | V4Cut | V6Cut | DomainCut | DomainEmpty | NameCut | TypeUnknown

  /** Version 5 and at least one method, all of them sent. */
  predicate MethodsSent(s: seq<Byte>) { |s| >= 2 && s[0] == 5 && s[1] != 0 && |s| >= 2 + s[1] as nat }

  /** ... no-auth among them. */
  predicate Offers(s: seq<Byte>) { MethodsSent(s) && exists i :: 2 <= i < 2 + s[1] as nat && s[i] == 0 }

  /** Where the request begins. */
  function RequestAt(s: seq<Byte>): nat
    requires |s| >= 2
  {
    2 + s[1] as nat
  }

  /** A greeting that is answered, and the head of a CONNECT request behind it. */
  predicate HeadSent(s: seq<Byte>, writable: nat) {
    Offers(s) && writable >= 1 && |s| >= RequestAt(s) + 4
  }

  predicate Connecting(s: seq<Byte>, writable: nat) {
    HeadSent(s, writable) && s[RequestAt(s)] == 5 && s[RequestAt(s) + 1] == 1
  }

  /** What is wrong with a stream, when the client still takes `writable` replies. */
  predicate Has(s: seq<Byte>, f: Flaw, writable: nat) {
    match f
    case GreetingCut => |s| < 2
    case GreetingWrong => |s| >= 2 && (s[0] != 5 || s[1] == 0)
    case MethodsCut => |s| >= 2 && s[0] == 5 && s[1] != 0 && |s| < 2 + s[1] as nat
    case NoMethodOffered => MethodsSent(s) && !Offers(s)
    case GreetingUnanswered => Offers(s) && writable == 0
    case RequestCut => Offers(s) && writable >= 1 && |s| < RequestAt(s) + 4
    case RequestWrong => HeadSent(s, writable) && s[RequestAt(s)] != 5
    case NotConnect => HeadSent(s, writable) && s[RequestAt(s)] == 5 && s[RequestAt(s) + 1] != 1
    case V4Cut => Connecting(s, writable) && s[RequestAt(s) + 3] == 1 && |s| < RequestAt(s) + 10
    case V6Cut => Connecting(s, writable) && s[RequestAt(s) + 3] == 4 && |s| < RequestAt(s) + 22
    case DomainCut => Connecting(s, writable) && s[RequestAt(s) + 3] == 3 && |s| == RequestAt(s) + 4
    case DomainEmpty =>
      Connecting(s, writable) && s[RequestAt(s) + 3] == 3 && |s| > RequestAt(s) + 4 && s[RequestAt(s) + 4] == 0
    case NameCut =>
      && Connecting(s, writable) && s[RequestAt(s) + 3] == 3 && |s| > RequestAt(s) + 4 && s[RequestAt(s) + 4] != 0
      && |s| < RequestAt(s) + 7 + s[RequestAt(s) + 4] as nat
    case TypeUnknown => Connecting(s, writable) && s[RequestAt(s) + 3] !in [1, 3, 4]
  }

  function Why(f: Flaw, writable: nat): Rejection {
    match f
    case GreetingCut => InvalidGreeting
    case GreetingWrong => InvalidGreeting
    case MethodsCut => InvalidGreeting
    case NoMethodOffered => NoAcceptableMethod
    case GreetingUnanswered => ReplyFailed
    case RequestCut => InvalidRequest
    case RequestWrong => InvalidRequest
    case NotConnect => if writable == 1 then ReplyFailed else UnsupportedCommand
    case V4Cut => InvalidV4
    case V6Cut => InvalidV6
    case DomainCut => InvalidDomain
    case DomainEmpty => InvalidDomainLength
    case NameCut => InvalidDomainLength
    case TypeUnknown => if writable == 1 then ReplyFailed else UnsupportedAddressType
  }

  /** The replies attempted, byte for byte: no method, or no-auth and then a reply of code 1, 7 or 8. */
  function Told(f: Flaw): seq<seq<Byte>> {
    match f
    case GreetingCut => [[5, 255]]
    case GreetingWrong => [[5, 255]]
    case MethodsCut => [[5, 255]]
    case NoMethodOffered => [[5, 255]]
    case GreetingUnanswered => [[5, 0]]
    case NotConnect => [[5, 0], [5, 7, 0, 1, 0, 0, 0, 0, 0, 0]]
    case TypeUnknown => [[5, 0], [5, 8, 0, 1, 0, 0, 0, 0, 0, 0]]
    case _ => [[5, 0], [5, 1, 0, 1, 0, 0, 0, 0, 0, 0]]
  }

  /** How much of the stream is gone: all of it when it was cut short, else up to what was wrong. */
  function Gone(s: seq<Byte>, f: Flaw, writable: nat): nat
    requires Has(s, f, writable)
  {
    match f
    case GreetingWrong => 2
    case NoMethodOffered => RequestAt(s)
    case GreetingUnanswered => RequestAt(s)
    case RequestWrong => RequestAt(s) + 4
    case NotConnect => RequestAt(s) + 4
    case TypeUnknown => RequestAt(s) + 4
    case DomainEmpty => RequestAt(s) + 5
    case _ => |s|
  }

  // ---------------------------------------------------------------- the front says so

  lemma OffersInSlice(s: seq<Byte>)
    requires MethodsSent(s)
    ensures Offers(s) <==> 0 in s[2..RequestAt(s)]
  {
    var methods := s[2..RequestAt(s)];
    if Offers(s) {
      var i :| 2 <= i < 2 + s[1] as nat && s[i] == 0;
      assert methods[i - 2] == 0;
    }
    if 0 in methods {
      var j :| 0 <= j < |methods| && methods[j] == 0;
      assert s[j + 2] == 0;
    }
  }

  lemma GreetingFlaws(s: seq<Byte>, f: Flaw, writable: nat)
    requires Has(s, f, writable)
    requires f in [GreetingCut, GreetingWrong, MethodsCut, NoMethodOffered, GreetingUnanswered]
    ensures Parse(s, writable) == Parsed(Err(Why(f, writable)), Gone(s, f, writable), Told(f))
  {
    if MethodsSent(s) {
      OffersInSlice(s);
    }
  }

  lemma OfferedIsAgreed(s: seq<Byte>, writable: nat)
    requires Offers(s) && writable >= 1
    ensures ParseGreeting(s, writable) == Agreed(RequestAt(s))
  {
    OffersInSlice(s);
  }

  /** What is said of a request is said after the no-auth answer. */
  lemma RequestFlawed(s: seq<Byte>, writable: nat, r: seq<Byte>, why: Rejection, gone: nat, reply: seq<Byte>)
    requires Offers(s) && writable >= 1 && r == s[RequestAt(s)..]
    requires ParseRequest(r, writable - 1) == Parsed(Err(why), gone, [reply])
    ensures Parse(s, writable) == Parsed(Err(why), RequestAt(s) + gone, [[5, 0], reply])
  {
    OfferedIsAgreed(s, writable);
    assert [NO_AUTH] + [reply] == [[5, 0], reply];
  }

  lemma HeadFlaws(s: seq<Byte>, f: Flaw, writable: nat)
    requires Has(s, f, writable) && f in [RequestCut, RequestWrong, NotConnect]
    ensures Parse(s, writable) == Parsed(Err(Why(f, writable)), Gone(s, f, writable), Told(f))
  {
    var r := s[RequestAt(s)..];
    RequestFlawed(s, writable, r, Why(f, writable), Gone(s, f, writable) - RequestAt(s), Told(f)[1]);
  }

  lemma AddressFlawed(r: seq<Byte>, k: nat, b: seq<Byte>, why: Rejection, gone: nat, reply: seq<Byte>)
    requires |r| >= 4 && r[0] == 5 && r[1] == 1 && b == r[4..]
    requires ParseAddress(b, r[3], k) == Parsed(Err(why), gone, [reply])
    ensures ParseRequest(r, k) == Parsed(Err(why), 4 + gone, [reply])
  {
  }

  lemma AddressFlaws(s: seq<Byte>, f: Flaw, writable: nat)
    requires Has(s, f, writable) && f in [V4Cut, V6Cut, DomainCut, DomainEmpty, NameCut, TypeUnknown]
    ensures Parse(s, writable) == Parsed(Err(Why(f, writable)), Gone(s, f, writable), Told(f))
  {
    var r := s[RequestAt(s)..];
    var b := r[4..];
    assert b == s[RequestAt(s) + 4..];
    AddressFlawed(r, writable - 1, b, Why(f, writable), Gone(s, f, writable) - RequestAt(s) - 4, Told(f)[1]);
    RequestFlawed(s, writable, r, Why(f, writable), Gone(s, f, writable) - RequestAt(s), Told(f)[1]);
  }

  /** A flaw decides the rejection, the replies to the byte and what has been consumed. */
  lemma FlawIsTold(s: seq<Byte>, f: Flaw, writable: nat)
    requires Has(s, f, writable)
    ensures Parse(s, writable) == Parsed(Err(Why(f, writable)), Gone(s, f, writable), Told(f))
  {
    if f in [GreetingCut, GreetingWrong, MethodsCut, NoMethodOffered, GreetingUnanswered] {
      GreetingFlaws(s, f, writable);
    } else if f in [RequestCut, RequestWrong, NotConnect] {
      HeadFlaws(s, f, writable);
    } else {
      AddressFlaws(s, f, writable);
    }
  }

  /** Flaws exclude each other, so each refusal has one. */
  lemma OneFlaw(s: seq<Byte>, f: Flaw, g: Flaw, writable: nat)
    requires Has(s, f, writable) && Has(s, g, writable)
    ensures f == g
  {
  }

  /** The flaw of a stream that is turned away. */
  function FlawOf(s: seq<Byte>, writable: nat): Flaw
  {
    if |s| < 2 then GreetingCut
    else if s[0] != 5 || s[1] == 0 then GreetingWrong
    else if |s| < 2 + s[1] as nat then MethodsCut
    else if !Offers(s) then NoMethodOffered
    else if writable == 0 then GreetingUnanswered
    else if |s| < RequestAt(s) + 4 then RequestCut
    else if s[RequestAt(s)] != 5 then RequestWrong
    else if s[RequestAt(s) + 1] != 1 then NotConnect
    else if s[RequestAt(s) + 3] == 1 then V4Cut
    else if s[RequestAt(s) + 3] == 4 then V6Cut
    else if s[RequestAt(s) + 3] != 3 then TypeUnknown
    else if |s| == RequestAt(s) + 4 then DomainCut
    else if s[RequestAt(s) + 4] == 0 then DomainEmpty
    else NameCut
  }

  /** A stream is turned away if and only if it has one of these flaws. */
  lemma RefusedIffFlawed(s: seq<Byte>, writable: nat)
    ensures Parse(s, writable).result.Err? <==> exists f :: Has(s, f, writable)
  {
    forall f | Has(s, f, writable) ensures Parse(s, writable).result.Err? {
      FlawIsTold(s, f, writable);
    }
    if Parse(s, writable).result.Err? {
      RefusedHasFlaw(s, writable);
    }
  }

  lemma RefusedHasFlaw(s: seq<Byte>, writable: nat)
    requires Parse(s, writable).result.Err?
    ensures Has(s, FlawOf(s, writable), writable)
  {
    if Connecting(s, writable) {
      OfferedIsAgreed(s, writable);
      var r := s[RequestAt(s)..];
      var b := r[4..];
      assert b == s[RequestAt(s) + 4..];
    }
  }

  /** What the client of a flawed stream has received when the conversation on its connection is over. */
  lemma FlawedClientIsTold(a: Front.Moment, r: Result<Target, Rejection>, b: Front.Moment, writable: nat, f: Flaw)
    requires Front.Converses(a, r, b, writable) && a.replies == [] && Has(a.rest, f, writable)
    ensures r == Err(Why(f, writable))
    ensures b.rest == a.rest[Gone(a.rest, f, writable)..]
    ensures b.replies == Told(f)[..Min(writable, |Told(f)|)]
  {
    FlawIsTold(a.rest, f, writable);
    IsRestIff(a.rest, Gone(a.rest, f, writable), b.rest);
  }
}
