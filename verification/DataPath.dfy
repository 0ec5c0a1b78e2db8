/** A SOCKS5 connection from its first byte to the end of its relay. */
module DataPath {
  import opened Wrappers
  import opened ProxyFront
  import HttpHead
  import Socks5
  import Relay

  /** Accept a SOCKS5 client: what the parser left over is what the relay will carry. */
  method AcceptSocks(conn: ClientConnection, first: nat, arrivals: HttpHead.Arrivals, direct: bool, remote: seq<Byte>)
    returns (r: Option<(Socks5.Target, Relay.Link)>)
    requires conn.pending == [] && conn.replies == []
    modifies conn
    ensures r.Some? <==> Detect(old(conn.live)).SocksProtocol? && Socks5.Parse(old(conn.live), conn.writable).result.Ok?
    ensures r.Some? ==>
              var p := Socks5.Parse(old(conn.live), conn.writable);
              && r.value.0 == p.result.value
              && r.value.1.Upstream() == old(conn.live)[p.consumed..]
              && r.value.1.remote == remote
  {
    var o := conn.HandleConnection(first, arrivals);
    if o.Socks? && o.result.Ok? {
      return Some((o.result.value, Relay.Link(direct, conn.pending, conn.live, remote)));
    }
    return None;
  }

  /**
   The tunnel is transparent. A client that opens a conversation and sends a payload behind it
   reaches the target it named, whatever the first read took in; the remote holds a prefix of
   the payload at every moment of the relay; and when the relay returns success with no
   expired window, it holds the payload and the client the whole answer.
   */
  lemma TunnelIsTransparent(methods: seq<Byte>, reserved: Byte, t: Socks5.Target, payload: seq<Byte>, writable: nat,
                            link: Relay.Link, others: nat, events: seq<Relay.Event>)
    requires Socks5.OffersNoAuth(methods) && t.Valid() && writable >= 1
    requires var stream := Socks5.EncodeGreeting(methods) + Socks5.EncodeConnect(t, reserved) + payload;
             link.Upstream() == stream[Socks5.Parse(stream, writable).consumed..]
    requires Relay.Run(link, Relay.Start(link, others), events).Some?
    ensures var stream := Socks5.EncodeGreeting(methods) + Socks5.EncodeConnect(t, reserved) + payload;
            Detect(stream).SocksProtocol? && Socks5.Parse(stream, writable).result == Ok(t)
    ensures var s := Relay.Run(link, Relay.Start(link, others), events).value;
            && s.up.delivered <= payload && s.down.delivered <= link.remote
            && (s.main == Relay.Exited(Ok(())) ==> s.down.delivered == link.remote)
            && (s.main == Relay.Exited(Ok(())) && !s.upExpired ==> s.up.delivered == payload)
  {
    var opening := Socks5.EncodeGreeting(methods) + Socks5.EncodeConnect(t, reserved);
    Socks5.EncodedOpeningParses(methods, reserved, t, payload, writable);
    assert (opening + payload)[|opening|..] == payload;
    assert (opening + payload)[0] == 5;
    Relay.RelayedBytesArePrefixes(link, others, events);
    if Relay.Run(link, Relay.Start(link, others), events).value.main == Relay.Exited(Ok(())) {
      Relay.OkMeansWholeStreams(link, others, events);
    }
  }

  /** Whatever opens with a SOCKS5 greeting is handled as SOCKS5, and a line that begins with a capital as HTTP. */
  lemma FirstBytesDecide(methods: seq<Byte>, rest: seq<Byte>, letter: char)
    requires |methods| <= 255 && 'A' <= letter <= 'Z'
    ensures Detect(Socks5.EncodeGreeting(methods) + rest).SocksProtocol?
    ensures Detect([letter as int as Byte] + rest).HttpProtocol?
    ensures Detect(rest).SocksProtocol? || Detect(rest).HttpProtocol? ==>
              rest[0] == 5 || 'A' as int <= rest[0] <= 'Z' as int
  {
  }

  /** The reply to a head that is too long or to another protocol. */
  lemma BadRequestReads()
    ensures BAD_REQUEST == Bytes("HTTP/1.1 400 Bad Request\r\n\r\n")
  {
  }

  function ByteOf(c: char): Byte { c as int % 256 }

  function Bytes(text: string): seq<Byte> { seq(|text|, i requires 0 <= i < |text| => ByteOf(text[i])) }
}
