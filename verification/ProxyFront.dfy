/**
 One accepted client connection: the first read, protocol detection, and the two request
 parsers, which first use up the bytes read ahead and then wait for the live stream.
 */
module ProxyFront {
  import opened Wrappers
  import Socks5
  import HttpHead

  const BAD_REQUEST: seq<Byte> :=
    [72, 84, 84, 80, 47, 49, 46, 49, 32, 52, 48, 48, 32,
     66, 97, 100, 32, 82, 101, 113, 117, 101, 115, 116, 13, 10, 13, 10]

  datatype FrontOutcome =
    | EmptyRequest
    | UnknownProtocol
    | Socks(result: Result<Socks5.Target, Socks5.Rejection>)
    | Http(head: HttpHead.HeadOutcome)

  /** What the first byte of a stream selects. */
  datatype Protocol = NoProtocol | SocksProtocol | HttpProtocol | OtherProtocol

  function Detect(stream: seq<Byte>): Protocol {
    if stream == [] then NoProtocol
    else if stream[0] == 5 then SocksProtocol
    else if 65 <= stream[0] <= 90 then HttpProtocol
    else OtherProtocol
  }

  /** The replies that reach a client which stops reading after `writable` of them. */
  function Delivered(attempted: seq<seq<Byte>>, writable: nat): seq<seq<Byte>> {
    attempted[..Min(writable, |attempted|)]
  }

  /** What a client that takes at most `writable` replies has seen after `more` on top of `sent`. */
  function Answered(sent: seq<seq<Byte>>, more: seq<seq<Byte>>, writable: nat): seq<seq<Byte>> {
    if |sent| <= writable then sent + Delivered(more, writable - |sent|) else sent
  }

  lemma AnsweredAfter(sent: seq<seq<Byte>>, message: seq<Byte>, more: seq<seq<Byte>>, writable: nat)
    requires |sent| < writable
    ensures Answered(sent, [message] + more, writable) == Answered(sent + [message], more, writable)
  {
    var k := Min(writable - |sent| - 1, |more|);
    assert ([message] + more)[..k + 1] == [message] + more[..k];
    assert sent + ([message] + more[..k]) == sent + [message] + more[..k];
  }

  lemma FromNothingSent(more: seq<seq<Byte>>, writable: nat)
    ensures Answered([], more, writable) == Delivered(more, writable)
  {
    assert [] + Delivered(more, writable) == Delivered(more, writable);
  }

  /**
   A connection between two reads: the unconsumed bytes in stream order, how many of them have
   been read ahead, and the replies the client took.
   */
  datatype Moment = Moment(ahead: nat, rest: seq<Byte>, replies: seq<seq<Byte>>)

  /** From `a` to `b`, `n` bytes were consumed, off the read-ahead first. */
  predicate Took(a: Moment, n: nat, b: Moment) {
    Socks5.IsRest(a.rest, n, b.rest) && b.ahead == if n <= a.ahead then a.ahead - n else 0
  }

  /** The parser outcome `p` leads from `a` to `b`. */
  predicate Leads(a: Moment, p: Socks5.Parsed, b: Moment, writable: nat) {
    Took(a, p.consumed, b) && b.replies == Answered(a.replies, p.replies, writable) && |b.replies| <= writable
  }

  /** A parser whose outcome is `p` returns `r`, and has led from `a` to `b`. */
  predicate Concludes(a: Moment, p: Socks5.Parsed, r: Result<Socks5.Target, Socks5.Rejection>,
                      b: Moment, writable: nat) {
    r == p.result && Leads(a, p, b, writable)
  }

  /** The greeting's verdict `g` leads from `a` to `b`, and this is what it rejects with. */
  predicate Greets(a: Moment, g: Socks5.Greeted, rejected: Option<Socks5.Rejection>, b: Moment, writable: nat) {
    match g
    case Refused(p) => rejected.Some? && p.result == Err(rejected.value) && Leads(a, p, b, writable)
    case Agreed(n) =>
      rejected.None? && Took(a, n, b) && b.replies == a.replies + [Socks5.NO_AUTH] && |b.replies| <= writable
  }

  lemma TookTwice(a: Moment, n: nat, b: Moment, m: nat, c: Moment)
    requires Took(a, n, b) && Took(b, m, c)
    ensures Took(a, n + m, c)
  {
    Socks5.RestOfRest(a.rest, n, b.rest, m, c.rest);
  }

  /** A parser that took `n` bytes in silence, followed by another parser. */
  lemma LeadsLater(a: Moment, n: nat, b: Moment, p: Socks5.Parsed, c: Moment, writable: nat)
    requires Took(a, n, b) && a.replies == b.replies && Leads(b, p, c, writable)
    ensures Leads(a, p.(consumed := n + p.consumed), c, writable)
  {
    TookTwice(a, n, b, p.consumed, c);
  }

  lemma GreetsLater(a: Moment, n: nat, b: Moment, g: Socks5.Greeted, rejected: Option<Socks5.Rejection>,
                    c: Moment, writable: nat)
    requires Took(a, n, b) && a.replies == b.replies && Greets(b, g, rejected, c, writable)
    ensures Greets(a, Socks5.Later(g, n), rejected, c, writable)
  {
    match g
    case Refused(p) => LeadsLater(a, n, b, p, c, writable);
    case Agreed(m) => TookTwice(a, n, b, m, c);
  }

  /** A parser that took `n` bytes and sent one reply, followed by another parser. */
  lemma LeadsAfter(a: Moment, n: nat, message: seq<Byte>, b: Moment, q: Socks5.Parsed, c: Moment, writable: nat)
    requires Took(a, n, b) && |a.replies| < writable && b.replies == a.replies + [message]
    requires Leads(b, q, c, writable)
    ensures Leads(a, Socks5.After(n, message, q), c, writable)
  {
    TookTwice(a, n, b, q.consumed, c);
    AnsweredAfter(a.replies, message, q.replies, writable);
  }

  /** The greeting's verdict on what is unconsumed at `a` leads to `b`. */
  predicate Opens(a: Moment, rejected: Option<Socks5.Rejection>, b: Moment, writable: nat) {
    |a.replies| <= writable && Greets(a, Socks5.ParseGreeting(a.rest, writable - |a.replies|), rejected, b, writable)
  }

  /** The whole conversation over what is unconsumed at `a` returns `r`, and has led to `b`. */
  predicate Converses(a: Moment, r: Result<Socks5.Target, Socks5.Rejection>, b: Moment, writable: nat) {
    |a.replies| <= writable && Concludes(a, Socks5.Parse(a.rest, writable - |a.replies|), r, b, writable)
  }

  lemma ConversationRefused(a: Moment, rejected: Option<Socks5.Rejection>, b: Moment, writable: nat)
    requires rejected.Some? && Opens(a, rejected, b, writable)
    ensures Converses(a, Err(rejected.value), b, writable)
  {
  }

  lemma RequestLeads(a: Moment, s: seq<Byte>, k: nat, b: Moment, r: Result<Socks5.Target, Socks5.Rejection>,
                     c: Moment, writable: nat)
    requires s == a.rest && k == writable - |a.replies|
    requires Greets(a, Socks5.ParseGreeting(s, k), None, b, writable) && |b.replies| <= writable
    requires Concludes(b, Socks5.ParseRequest(b.rest, writable - |b.replies|), r, c, writable)
    ensures Concludes(a, Socks5.Parse(s, k), r, c, writable)
  {
    var n := Socks5.ParseGreeting(s, k).length;
    var q := Socks5.ParseRequest(b.rest, writable - |b.replies|);
    Socks5.RequestFollowsGreeting(s, k, n, b.rest, q);
    LeadsAfter(a, n, Socks5.NO_AUTH, b, q, c, writable);
  }

  /** The request over what is unconsumed at `a` returns `r`, and has led to `b`. */
  predicate Requests(a: Moment, r: Result<Socks5.Target, Socks5.Rejection>, b: Moment, writable: nat) {
    |a.replies| <= writable && Concludes(a, Socks5.ParseRequest(a.rest, writable - |a.replies|), r, b, writable)
  }

  lemma ConversationAgreed(a: Moment, b: Moment, r: Result<Socks5.Target, Socks5.Rejection>, c: Moment, writable: nat)
    requires Opens(a, None, b, writable) && Requests(b, r, c, writable)
    ensures Converses(a, r, c, writable)
  {
    RequestLeads(a, a.rest, writable - |a.replies|, b, r, c, writable);
  }

  /** With `ahead` read ahead and `live` still to come, the first byte picks the protocol. */
  predicate Serves(ahead: seq<Byte>, live: seq<Byte>, a: Moment, arrivals: HttpHead.Arrivals,
                   o: FrontOutcome, b: Moment, writable: nat) {
    |a.replies| <= writable &&
    match Detect(ahead)
    case NoProtocol => false
    case SocksProtocol =>
      var p := Socks5.Parse(a.rest, writable - |a.replies|);
      o == Socks(p.result) && Leads(a, p, b, writable)
    case HttpProtocol =>
      && o == Http(HttpHead.HeadLoop(ahead, live, arrivals, 0)) && o.head.raw + b.rest == a.rest
      && b.replies == if o.head.TooLarge? then Answered(a.replies, [BAD_REQUEST], writable) else a.replies
    case OtherProtocol =>
      o == UnknownProtocol && b.rest == a.rest && b.replies == Answered(a.replies, [BAD_REQUEST], writable)
  }

  lemma ServesSocks(ahead: seq<Byte>, live: seq<Byte>, a: Moment, arrivals: HttpHead.Arrivals,
                    r: Result<Socks5.Target, Socks5.Rejection>, b: Moment, writable: nat)
    requires Detect(ahead).SocksProtocol? && Converses(a, r, b, writable)
    ensures Serves(ahead, live, a, arrivals, Socks(r), b, writable)
  {
  }

  lemma ServesHttp(ahead: seq<Byte>, live: seq<Byte>, a: Moment, arrivals: HttpHead.Arrivals,
                   head: HttpHead.HeadOutcome, b: Moment, writable: nat)
    requires |a.replies| <= writable && Detect(ahead).HttpProtocol?
    requires head == HttpHead.HeadLoop(ahead, live, arrivals, 0) && head.raw + b.rest == a.rest
    requires b.replies == if head.TooLarge? then Answered(a.replies, [BAD_REQUEST], writable) else a.replies
    ensures Serves(ahead, live, a, arrivals, Http(head), b, writable)
  {
  }

  lemma ServesOther(ahead: seq<Byte>, live: seq<Byte>, a: Moment, arrivals: HttpHead.Arrivals, b: Moment, writable: nat)
    requires |a.replies| <= writable && Detect(ahead).OtherProtocol? && b.rest == a.rest
    requires b.replies == Answered(a.replies, [BAD_REQUEST], writable)
    ensures Serves(ahead, live, a, arrivals, UnknownProtocol, b, writable)
  {
  }

  /**
   A whole connection on `stream`: its first `first` bytes arrive in one read, and `left` and
   `replies` are what is not consumed and what the client took. For SOCKS5 and for a foreign
   protocol all of it is a function of the stream; for HTTP it is the head loop started on
   that first read.
   */
  predicate Fronts(stream: seq<Byte>, first: nat, arrivals: HttpHead.Arrivals, writable: nat,
                   o: FrontOutcome, left: seq<Byte>, replies: seq<seq<Byte>>) {
    match Detect(stream)
    case NoProtocol => o == EmptyRequest && left == [] && replies == []
    case SocksProtocol =>
      var p := Socks5.Parse(stream, writable);
      o == Socks(p.result) && left == stream[p.consumed..] && replies == Delivered(p.replies, writable)
    case HttpProtocol =>
      var n := HttpHead.ReadSize(first, |stream|);
      && o == Http(HttpHead.HeadLoop(stream[..n], stream[n..], arrivals, 0)) && o.head.raw + left == stream
      && replies == Delivered(if o.head.TooLarge? then [BAD_REQUEST] else [], writable)
    case OtherProtocol => o == UnknownProtocol && left == stream && replies == Delivered([BAD_REQUEST], writable)
  }

  lemma ServesFronts(stream: seq<Byte>, n: nat, first: nat, arrivals: HttpHead.Arrivals, o: FrontOutcome,
                     b: Moment, writable: nat)
    requires n == HttpHead.ReadSize(first, |stream|) && 0 < n <= |stream|
    requires Serves(stream[..n], stream[n..], Moment(n, stream, []), arrivals, o, b, writable)
    ensures Fronts(stream, first, arrivals, writable, o, b.rest, b.replies)
  {
    assert stream[..n][0] == stream[0];
    match Detect(stream)
    case SocksProtocol =>
      var p := Socks5.Parse(stream, writable);
      Socks5.IsRestIff(stream, p.consumed, b.rest);
      FromNothingSent(p.replies, writable);
    case _ => FromNothingSent([BAD_REQUEST], writable);
  }

  class ClientConnection {
    /** Read ahead of the parser. */
    var pending: seq<Byte>
    /** Still to arrive; the stream ends, or stalls past its deadline, after these. */
    var live: seq<Byte>
    var replies: seq<seq<Byte>>
    const writable: nat

    constructor (stream: seq<Byte>, writable: nat)
      ensures pending == [] && live == stream && replies == [] && this.writable == writable
    {
      pending, live, replies, this.writable := [], stream, [], writable;
    }

    /** The bytes the parser has not consumed yet, in stream order. */
    ghost function Rest(): seq<Byte> reads this { pending + live }

    ghost function Now(): Moment reads this { Moment(|pending|, Rest(), replies) }

    method Write(message: seq<Byte>) returns (ok: bool)
      requires |replies| <= writable
      modifies this`replies
      ensures ok <==> |old(replies)| < writable
      ensures replies == old(replies) + if ok then [message] else []
      ensures replies == Answered(old(replies), [message], writable) && |replies| <= writable
    {
      ok := |replies| < writable;
      if ok {
        replies := replies + [message];
      }
    }

    /**
     Read exactly `n` bytes, the read-ahead first. On a short stream everything is used up
     and the read fails.
     */
    method ReadExact(n: nat) returns (out: Option<seq<Byte>>)
      modifies this`pending, this`live
      ensures out.Some? <==> n <= |old(Rest())|
      ensures out.Some? ==> out.value == old(Rest())[..n]
      ensures Took(old(Now()), if out.Some? then n else |old(Rest())|, Now())
    {
      ghost var all := Rest();
      var fromBuf := Min(|pending|, n);
      var got := pending[..fromBuf];
      pending := pending[fromBuf..];
      if fromBuf < n {
        var more := n - fromBuf;
        if |live| < more {
          live := [];
          assert pending + live == [];
          Socks5.IsRestIff(all, |all|, pending + live);
          return None;
        }
        got := got + live[..more];
        live := live[more..];
      }
      assert got + (pending + live) == all;
      Socks5.IsRestIff(all, n, pending + live);
      out := Some(got);
    }

    /** A four or sixteen byte address with its port. */
    method ReadFixed(size: nat, short: Socks5.Rejection) returns (r: Result<Socks5.Target, Socks5.Rejection>)
      requires |replies| <= writable && (size == 4 || size == 16)
      modifies this
      ensures Concludes(old(Now()), Socks5.ParseFixed(old(Rest()), size, short), r, Now(), writable)
    {
      var body := ReadExact(size + 2);
      match body {
        case None =>
          var _ := Write(Socks5.Reply(1));
          r := Err(short);
        case Some(b) =>
          var port := Socks5.Port(b[size], b[size + 1]);
          assert b[..size] == old(Rest())[..size];
          r := Ok(if size == 4 then Socks5.V4(b[..size], port) else Socks5.V6(b[..size], port));
      }
    }

    method ReadDomain() returns (r: Result<Socks5.Target, Socks5.Rejection>)
      requires |replies| <= writable
      modifies this
      ensures Concludes(old(Now()), Socks5.ParseDomain(old(Rest())), r, Now(), writable)
    {
      ghost var start := Now();
      var length := ReadExact(1);
      if length.None? {
        var _ := Write(Socks5.Reply(1));
        r := Err(Socks5.InvalidDomain);
      } else if length.value[0] == 0 {
        var _ := Write(Socks5.Reply(1));
        r := Err(Socks5.InvalidDomainLength);
      } else {
        ghost var next := Now();
        ghost var p := Socks5.ParseName(next.rest, length.value[0]);
        r := ReadName(length.value[0]);
        Socks5.NameFollowsLength(start.rest, next.rest, p);
        LeadsLater(start, 1, next, p, Now(), writable);
      }
    }

    method ReadName(n: nat) returns (r: Result<Socks5.Target, Socks5.Rejection>)
      requires |replies| <= writable
      modifies this
      ensures Concludes(old(Now()), Socks5.ParseName(old(Rest()), n), r, Now(), writable)
    {
      var body := ReadExact(n + 2);
      match body {
        case None =>
          var _ := Write(Socks5.Reply(1));
          r := Err(Socks5.InvalidDomainLength);
        case Some(b) =>
          assert b[..n] == old(Rest())[..n];
          r := Ok(Socks5.Domain(b[..n], Socks5.Port(b[n], b[n + 1])));
      }
    }

    method ReadAddress(atyp: Byte) returns (r: Result<Socks5.Target, Socks5.Rejection>)
      requires |replies| <= writable
      modifies this
      ensures Concludes(old(Now()), Socks5.ParseAddress(old(Rest()), atyp, writable - |old(replies)|),
                        r, Now(), writable)
    {
      match atyp {
        case 1 => r := ReadFixed(4, Socks5.InvalidV4);
        case 3 => r := ReadDomain();
        case 4 => r := ReadFixed(16, Socks5.InvalidV6);
        case _ =>
          var ok := Write(Socks5.Reply(8));
          r := Err(if ok then Socks5.UnsupportedAddressType else Socks5.ReplyFailed);
      }
    }

    method ReadRequest() returns (r: Result<Socks5.Target, Socks5.Rejection>)
      requires |replies| <= writable
      modifies this
      ensures Requests(old(Now()), r, Now(), writable)
    {
      ghost var start := Now();
      var head := ReadExact(4);
      if head.None? || head.value[0] != 5 {
        var _ := Write(Socks5.Reply(1));
        r := Err(Socks5.InvalidRequest);
      } else if head.value[1] != 1 {
        var ok := Write(Socks5.Reply(7));
        r := Err(if ok then Socks5.UnsupportedCommand else Socks5.ReplyFailed);
      } else {
        r := ReadAddressAfter(head.value[3], start);
      }
    }

    /** After an accepted request head: the address, as the end of the whole request. */
    method ReadAddressAfter(atyp: Byte, ghost start: Moment) returns (r: Result<Socks5.Target, Socks5.Rejection>)
      requires |replies| <= writable && replies == start.replies
      requires |start.rest| >= 4 && start.rest[0] == 5 && start.rest[1] == 1 && start.rest[3] == atyp
      requires Took(start, 4, Now())
      modifies this
      ensures Requests(start, r, Now(), writable)
    {
      ghost var next := Now();
      ghost var p := Socks5.ParseAddress(next.rest, atyp, writable - |replies|);
      r := ReadAddress(atyp);
      Socks5.AddressFollowsHead(start.rest, writable - |start.replies|, next.rest, p);
      LeadsLater(start, 4, next, p, Now(), writable);
    }

    /** The greeting and the method choice; None when the conversation goes on. */
    method ReadGreeting() returns (rejected: Option<Socks5.Rejection>)
      requires |replies| <= writable
      modifies this
      ensures |replies| <= writable && Opens(old(Now()), rejected, Now(), writable)
    {
      ghost var start := Now();
      var greeting := ReadExact(2);
      if greeting.None? || greeting.value[0] != 5 || greeting.value[1] == 0 {
        var _ := Write(Socks5.NO_METHOD);
        return Some(Socks5.InvalidGreeting);
      }
      ghost var next := Now();
      ghost var g := Socks5.ParseMethods(next.rest, greeting.value[1], writable - |replies|);
      rejected := ReadMethods(greeting.value[1]);
      Socks5.MethodsFollowCount(start.rest, writable - |old(replies)|, next.rest, g);
      GreetsLater(start, 2, next, g, rejected, Now(), writable);
    }

    method ReadMethods(n: nat) returns (rejected: Option<Socks5.Rejection>)
      requires |replies| <= writable
      modifies this
      ensures Greets(old(Now()), Socks5.ParseMethods(old(Rest()), n, writable - |old(replies)|),
                     rejected, Now(), writable)
    {
      var methods := ReadExact(n);
      if methods.None? {
        var _ := Write(Socks5.NO_METHOD);
        return Some(Socks5.InvalidGreeting);
      }
      if 0 !in methods.value {
        var _ := Write(Socks5.NO_METHOD);
        return Some(Socks5.NoAcceptableMethod);
      }
      var ok := Write(Socks5.NO_AUTH);
      rejected := if ok then None else Some(Socks5.ReplyFailed);
    }

    /** After an agreed greeting: the request, as the end of the whole conversation. */
    method ReadRequestAfter(ghost start: Moment) returns (r: Result<Socks5.Target, Socks5.Rejection>)
      requires |replies| <= writable && Opens(start, None, Now(), writable)
      modifies this
      ensures Converses(start, r, Now(), writable)
    {
      ghost var next := Now();
      r := ReadRequest();
      ConversationAgreed(start, next, r, Now(), writable);
    }

    /**
     The SOCKS5 conversation. Everything it decides is a function of the unconsumed bytes in
     stream order, however they are split between read-ahead and live stream; on success the
     rest of the read-ahead is the early data the relay sends first.
     */
    method HandleSocks5() returns (r: Result<Socks5.Target, Socks5.Rejection>)
      requires |replies| <= writable
      modifies this
      ensures Converses(old(Now()), r, Now(), writable)
    {
      ghost var start := Now();
      var rejected := ReadGreeting();
      if rejected.Some? {
        ConversationRefused(start, rejected, Now(), writable);
        r := Err(rejected.value);
      } else {
        r := ReadRequestAfter(start);
      }
    }

    /**
     Accumulate an HTTP head. No byte is lost or reordered: what was taken and what is still
     to come make up the stream.
     */
    method ReadHttpHead(arrivals: HttpHead.Arrivals) returns (o: HttpHead.HeadOutcome)
      requires |replies| <= writable
      modifies this
      ensures o == HttpHead.HeadLoop(old(pending), old(live), arrivals, 0)
      ensures pending == [] && o.raw + live == old(Rest())
      ensures |replies| <= writable
      ensures replies == if o.TooLarge? then Answered(old(replies), [BAD_REQUEST], writable) else old(replies)
    {
      var raw := pending;
      pending := [];
      var headerEnd := HttpHead.FindHeaderEnd(raw);
      var k := 0;
      while headerEnd.None?
        invariant pending == [] && raw + live == old(Rest()) && replies == old(replies)
        invariant headerEnd == HttpHead.FindHeaderEnd(raw)
        invariant HttpHead.HeadLoop(raw, live, arrivals, k) == HttpHead.HeadLoop(old(pending), old(live), arrivals, 0)
        decreases |live|
      {
        if |raw| > HttpHead.MAX_HTTP_HEAD {
          var _ := Write(BAD_REQUEST);
          return HttpHead.TooLarge(raw);
        }
        match arrivals(k) {
          case Fails => return HttpHead.ReadFailed(raw);
          case Arrives(wish) =>
            var n := HttpHead.ReadSize(wish, |live|);
            if n == 0 {
              return HttpHead.Head(raw, None);
            }
            assert raw + live == raw + live[..n] + live[n..];
            raw, live, k := raw + live[..n], live[n..], k + 1;
            headerEnd := HttpHead.FindHeaderEnd(raw);
        }
      }
      o := HttpHead.Head(raw, headerEnd);
    }

    /** One read: some of the stream becomes the read-ahead. */
    method FirstRead(first: nat) returns (n: nat)
      requires pending == []
      modifies this`pending, this`live
      ensures n == HttpHead.ReadSize(first, |old(live)|) && n <= |old(live)|
      ensures pending == old(live)[..n] && live == old(live)[n..] && Rest() == old(live)
    {
      n := HttpHead.ReadSize(first, |live|);
      pending, live := live[..n], live[n..];
    }

    method Serve(arrivals: HttpHead.Arrivals) returns (o: FrontOutcome)
      requires pending != [] && |replies| <= writable
      modifies this
      ensures Serves(old(pending), old(live), old(Now()), arrivals, o, Now(), writable)
    {
      ghost var start, ahead, toCome := Now(), pending, live;
      if pending[0] == 5 {
        var r := HandleSocks5();
        o := Socks(r);
        ServesSocks(ahead, toCome, start, arrivals, r, Now(), writable);
      } else if 65 <= pending[0] <= 90 {
        var head := ReadHttpHead(arrivals);
        o := Http(head);
        ServesHttp(ahead, toCome, start, arrivals, head, Now(), writable);
      } else {
        var _ := Write(BAD_REQUEST);
        o := UnknownProtocol;
        ServesOther(ahead, toCome, start, arrivals, Now(), writable);
      }
    }

    /** A fresh connection: one read ahead of at most `first` bytes picks the protocol. */
    method HandleConnection(first: nat, arrivals: HttpHead.Arrivals) returns (o: FrontOutcome)
      requires pending == [] && replies == []
      modifies this
      ensures Fronts(old(live), first, arrivals, writable, o, Rest(), replies)
    {
      var n := FirstRead(first);
      if n == 0 {
        o := EmptyRequest;
      } else {
        o := Serve(arrivals);
        ServesFronts(old(live), n, first, arrivals, o, Now(), writable);
      }
    }
  }
}
