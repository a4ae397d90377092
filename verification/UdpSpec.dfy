/** The UDP relay as a step machine: its client cache, its shared Encryptor and both datagram paths. */
module UdpSpec {
  import opened Bits
  import opened ByteStrings
  import opened Streams
  import opened Addresses
  import opened RelaySpec

  const RECV_SIZE := 65536

  /** A socket handle, distinct for sockets alive at the same time. */
  type Sock = nat

  /** A datagram sent through a cached socket, or back to a client through the listening one. */
  datatype Packet = Packet(via: Option<Sock>, data: Bytes, ip: Option<IP>, port: bv16)

  datatype UdpConfig = UdpConfig(p: Profile, q: Text, isLocal: bool, server: Endpoint, junk: Byte)

  datatype Udp = Udp(
    cache: map<Endpoint, Sock>,
    enc: EncState,
    sent: seq<Packet>,
    owner: map<Sock, Endpoint>)     // who each socket was created for

  datatype UdpEvent =
    // A datagram from ip:port on the listening socket. handle is the socket a cache miss would create,
    // draw the next IV, banned what the ban list says, answer what a blocking lookup returns.
    | FromClient(data: Bytes, ip: IP, port: bv16, handle: Sock, draw: Bytes, banned: bool, answer: seq<IP>)
    // A datagram from ip:port on a cached socket.
    | FromFar(sock: Sock, data: Bytes, ip: IP, port: bv16, draw: Bytes)
    | Disconnected(sock: Sock)
    | Closed(draw: Bytes)

  /** The Address made of a sender's IP and port. */
  function ClientOf(q: Text, ip: IP, port: bv16): Endpoint {
    Endpoint(q.show(ip), port, [ip])
  }

  /** The cache's reverse lookup; an unknown socket belongs to the default address. */
  ghost function KeyOf(cache: map<Endpoint, Sock>, sock: Sock): Endpoint {
    if exists k :: k in cache && cache[k] == sock then
      var k :| k in cache && cache[k] == sock;
      k
    else BLANK
  }

  function Dest(a: Endpoint, answer: seq<IP>): Endpoint {
    if a.ips == [] then a.(ips := answer) else a
  }

  /** What passes the first checks of the listening socket: plain bytes starting with a header. */
  function Admit(c: UdpConfig, u: Udp, e: UdpEvent): (Udp, Option<Bytes>)
    requires e.FromClient?
  {
    if |e.data| > RECV_SIZE then (u, None)
    else if c.isLocal then
      if At(e.data, 2) != 0 then (u, None) else (u, Some(Drop(e.data, 3)))
    else if e.banned then (u, None)
    else
      var (s, plain) := DecryptAll(c.p, u.enc, e.data);
      (u.(enc := s), Some(plain))
  }

  /** The socket for a client, created on its first datagram. */
  function Cached(u: Udp, client: Endpoint, handle: Sock): (Udp, Sock) {
    if client in u.cache then (u, u.cache[client])
    else (u.(cache := u.cache[client := handle], owner := u.owner[handle := client]), handle)
  }

  function OnFromClient(c: UdpConfig, u: Udp, e: UdpEvent): Udp
    requires e.FromClient?
  {
    var (u1, plain) := Admit(c, u, e);
    if plain == None then u1
    else
      match ParseHeader(c.q, plain.value, c.junk)
      case NoHeader => u1
      case Header(dest, n) =>
        var (u2, sock) := Cached(u1, ClientOf(c.q, e.ip, e.port), e.handle);
        if c.isLocal then
          var (s, out) := EncryptAll(c.p, u2.enc, plain.value, e.draw);
          var d := Dest(c.server, e.answer);
          u2.(enc := s, sent := u2.sent + [Packet(Some(sock), out, FirstIP(d), d.port)])
        else
          var out := Mid(plain.value, n, |plain.value| - n - AUTH_LEN);
          var d := Dest(dest, e.answer);
          u2.(sent := u2.sent + [Packet(Some(sock), out, FirstIP(d), d.port)])
  }

  /** The response a datagram from the far side turns into. */
  function Response(c: UdpConfig, s: EncState, e: UdpEvent): (EncState, Option<Bytes>)
    requires e.FromFar?
  {
    if |e.data| > RECV_SIZE then (s, None)
    else if c.isLocal then
      var (t, plain) := DecryptAll(c.p, s, e.data);
      if ParseHeader(c.q, plain, c.junk).NoHeader? then (t, None) else (t, Some([0, 0, 0] + plain))
    else
      var (t, out) := EncryptAll(c.p, s, PackIP(e.ip, e.port) + e.data, e.draw);
      (t, Some(out))
  }

  ghost function OnFromFar(c: UdpConfig, u: Udp, e: UdpEvent): Udp
    requires e.FromFar?
  {
    var (s, response) := Response(c, u.enc, e);
    var client := KeyOf(u.cache, e.sock);
    if response == None || client.port == 0 then u.(enc := s)
    else u.(enc := s, sent := u.sent + [Packet(None, response.value, FirstIP(client), client.port)])
  }

  ghost function UdpStep(c: UdpConfig, u: Udp, e: UdpEvent): Udp {
    match e
    case FromClient(_, _, _, _, _, _, _) => OnFromClient(c, u, e)
    case FromFar(_, _, _, _, _) => OnFromFar(c, u, e)
    case Disconnected(sock) => u.(cache := u.cache - {KeyOf(u.cache, sock)})
    case Closed(draw) => u.(cache := map[], enc := Reset(u.enc, draw))
  }

  /** A new socket is none of the cached ones; draws are whole IVs. */
  predicate UdpPossible(c: UdpConfig, u: Udp, e: UdpEvent) {
    match e
    case FromClient(_, _, _, handle, draw, _, _) => handle !in u.cache.Values && |draw| == c.p.ivLen
    case FromFar(_, _, _, _, draw) => |draw| == c.p.ivLen
    case Disconnected(_) => true
    case Closed(draw) => |draw| == c.p.ivLen
  }

  // ----- The cache -----

  predicate IsClient(q: Text, k: Endpoint) {
    |k.ips| == 1 && k.text == q.show(k.ips[0])
  }

  /** A bijection between clients and the sockets created for them. */
  ghost predicate CacheOk(c: UdpConfig, u: Udp) {
    && (forall k :: k in u.cache ==> IsClient(c.q, k))
    && (forall k :: k in u.cache ==> u.cache[k] in u.owner && u.owner[u.cache[k]] == k)
    && |u.enc.nextIV| == c.p.ivLen
  }

  /** Two clients never share a socket, and the reverse lookup finds the client a socket was created for. */
  lemma CacheBijective(c: UdpConfig, u: Udp)
    requires CacheOk(c, u)
    ensures forall k, l :: k in u.cache && l in u.cache && u.cache[k] == u.cache[l] ==> k == l
    ensures forall s :: s in u.cache.Values ==> s in u.owner && KeyOf(u.cache, s) == u.owner[s]
    ensures forall k :: k in u.cache ==> KeyOf(u.cache, u.cache[k]) == k
    ensures forall s :: s !in u.cache.Values ==> KeyOf(u.cache, s) == BLANK
  {
    forall s | s in u.cache.Values
      ensures s in u.owner && KeyOf(u.cache, s) == u.owner[s]
    {
      var k :| k in u.cache && u.cache[k] == s;
      assert KeyOf(u.cache, s) in u.cache;
    }
  }

  lemma UdpStepOk(c: UdpConfig, u: Udp, e: UdpEvent)
    requires ValidText(c.q) && CacheOk(c, u) && UdpPossible(c, u, e)
    ensures CacheOk(c, UdpStep(c, u, e))
  {
    hide DecryptAll, EncryptAll, ParseHeader, PackIP, Mask;
    if e.FromClient? {
      AdmitKeeps(c, u, e);
      var u1 := Admit(c, u, e).0;
      CachedOk(c, u1, ClientOf(c.q, e.ip, e.port), e.handle);
      EncryptAllIV(c.p, Cached(u1, ClientOf(c.q, e.ip, e.port), e.handle).0.enc, e.draw);
    } else if e.FromFar? {
      EncryptAllIV(c.p, u.enc, e.draw);
      DecryptAllIV(c.p, u.enc, e.data);
    }
  }

  lemma EncryptAllIV(p: Profile, s: EncState, draw: Bytes)
    ensures forall data :: EncryptAll(p, s, data, draw).0.nextIV == draw
  {
  }

  lemma DecryptAllIV(p: Profile, s: EncState, data: Bytes)
    ensures DecryptAll(p, s, data).0.nextIV == s.nextIV
  {
  }

  lemma AdmitKeeps(c: UdpConfig, u: Udp, e: UdpEvent)
    requires e.FromClient?
    ensures var u1 := Admit(c, u, e).0;
      u1.cache == u.cache && u1.owner == u.owner && u1.enc.nextIV == u.enc.nextIV && u1.sent == u.sent
  {
    hide Mask;
  }

  lemma CachedOk(c: UdpConfig, u: Udp, client: Endpoint, handle: Sock)
    requires CacheOk(c, u) && handle !in u.cache.Values && IsClient(c.q, client)
    ensures var (v, s) := Cached(u, client, handle);
      CacheOk(c, v) && client in v.cache && v.cache[client] == s && v.enc == u.enc && v.sent == u.sent
  {
    var v := Cached(u, client, handle).0;
    forall k | k in v.cache
      ensures v.cache[k] in v.owner && v.owner[v.cache[k]] == k
    {
      if k in u.cache {
        assert u.cache[k] in u.cache.Values;
      }
    }
  }

  /** A relay that has just been created. */
  function NewRelay(iv: Bytes): Udp {
    Udp(map[], EncState(iv, None, None, [], 0), [], map[])
  }

  ghost predicate UdpRun(c: UdpConfig, iv: Bytes, events: seq<UdpEvent>, us: seq<Udp>) {
    && |us| == |events| + 1 && us[0] == NewRelay(iv)
    && forall i :: 0 <= i < |events| ==>
         UdpPossible(c, us[i], events[i]) && us[i + 1] == UdpStep(c, us[i], events[i])
  }

  /** In every reachable state the cache pairs each client with a socket of its own. */
  lemma {:induction false} CacheAlwaysOk(c: UdpConfig, iv: Bytes, events: seq<UdpEvent>, us: seq<Udp>, n: nat)
    requires ValidText(c.q) && |iv| == c.p.ivLen && UdpRun(c, iv, events, us) && n < |us|
    ensures CacheOk(c, us[n])
  {
    hide UdpStep;
    if n != 0 {
      CacheAlwaysOk(c, iv, events, us, n - 1);
      UdpStepOk(c, us[n - 1], events[n - 1]);
    }
  }

  /** Disconnecting a cached socket removes its client's entry and nothing else. */
  lemma DisconnectRemovesOne(c: UdpConfig, u: Udp, sock: Sock)
    requires CacheOk(c, u) && ValidText(c.q)
    ensures var v := UdpStep(c, u, Disconnected(sock));
      forall k :: k in v.cache <==> k in u.cache && u.cache[k] != sock
    ensures var v := UdpStep(c, u, Disconnected(sock));
      forall k :: k in v.cache ==> v.cache[k] == u.cache[k]
  {
    CacheBijective(c, u);
    if sock !in u.cache.Values {
      assert BLANK !in u.cache;
    }
  }

  /** An entry survives every step but the disconnection of its socket and the closing of the relay. */
  lemma EntryStays(c: UdpConfig, u: Udp, e: UdpEvent, k: Endpoint)
    requires CacheOk(c, u) && ValidText(c.q) && k in u.cache
    ensures var v := UdpStep(c, u, e);
      (k in v.cache && v.cache[k] == u.cache[k])
      <==> !e.Closed? && (e.Disconnected? ==> e.sock != u.cache[k])
  {
    hide DecryptAll, EncryptAll, ParseHeader, PackIP;
    if e.Disconnected? {
      DisconnectRemovesOne(c, u, e.sock);
    } else if e.FromClient? {
      AdmitKeeps(c, u, e);
    }
  }

  /** Closing leaves no client and no cipher, and an IV that has keyed none. */
  lemma ClosedClean(c: UdpConfig, u: Udp, draw: Bytes)
    ensures var v := UdpStep(c, u, Closed(draw));
      && v.cache == map[] && v.sent == u.sent
      && v.enc.en == None && v.enc.de == None && v.enc.chunkId == 0
      && v.enc.nextIV == if u.enc.en == None then u.enc.nextIV else draw
  {
  }

  // ----- Replies -----

  /** The form of section 7 of RFC 1928: two reserved bytes, fragment 0, source address, data. */
  function Relayed(ip: IP, port: bv16, payload: Bytes): Bytes {
    [0, 0, 0] + PackIP(ip, port) + payload
  }

  /**
   Reply path end to end: what the server makes of a datagram, the client turns into the section 7 form of
   the same payload and source, whatever both did before, and sends it to the client behind the socket.
   */
  lemma ReplyEndToEnd(sc: UdpConfig, s: EncState, far: UdpEvent, cc: UdpConfig, u: Udp, near: UdpEvent)
    requires far.FromFar? && near.FromFar? && !sc.isLocal && cc.isLocal && sc.p == cc.p
    requires |s.nextIV| == sc.p.ivLen
    requires Response(sc, s, far).1 == Some(near.data) && |near.data| <= RECV_SIZE
    requires CacheOk(cc, u)
    ensures Response(cc, u.enc, near).1 == Some([0, 0, 0] + PackIP(far.ip, far.port) + far.data)
    ensures near.sock in u.cache.Values && u.owner[near.sock].port != 0 ==>
      UdpStep(cc, u, near).sent == u.sent + [Packet(None, [0, 0, 0] + PackIP(far.ip, far.port) + far.data,
        Some(u.owner[near.sock].ips[0]), u.owner[near.sock].port)]
  {
    hide PackIP, ParseHeader, DecryptAll, EncryptAll;
    var head := PackIP(far.ip, far.port);
    DatagramRoundTrip(sc.p, s, head + far.data, far.draw, u.enc);
    PackIPThenParse(cc.q, far.ip, far.port, far.data, cc.junk);
    assert [0, 0, 0] + (head + far.data) == Relayed(far.ip, far.port, far.data);
    CacheBijective(cc, u);
  }

  /**
   A reply is passed on exactly if it is not too long, the socket has a client with a port, and, at a client, what
   it decrypts to begins with a header. Otherwise nothing is sent.
   */
  lemma RepliedExactly(c: UdpConfig, u: Udp, e: UdpEvent)
    requires e.FromFar? && CacheOk(c, u)
    ensures var v := UdpStep(c, u, e);
      var passed := |e.data| <= 65536 && e.sock in u.cache.Values && u.owner[e.sock].port != 0
                    && (c.isLocal ==> ParseHeader(c.q, DecryptAll(c.p, u.enc, e.data).1, c.junk).Header?);
      && |v.sent| == (if passed then |u.sent| + 1 else |u.sent|)
      && (!passed ==> v.sent == u.sent)
      && v.cache == u.cache
      && (|e.data| > 65536 ==> v == u)
  {
    hide ParseHeader, DecryptAll, EncryptAll, PackIP;
    CacheBijective(c, u);
  }

  // ----- Replies over a lossy network -----

  /** A datagram a far host sent to one of the server's sockets. */
  datatype Origin = Origin(sock: Sock, ip: IP, port: bv16, payload: Bytes)

  /** Both relays, the replies the server has sent, and what each was made of. */
  datatype Net = Net(server: Udp, client: Udp, wires: seq<Packet>, origins: seq<Origin>)

  datatype NetHop = AtServer(e: UdpEvent) | AtClient(e: UdpEvent)

  /** Where the client's sockets are bound. */
  type Binding = Sock -> (IP, bv16)

  predicate SentTo(w: Packet, place: (IP, bv16)) {
    w.ip == Some(place.0) && w.port == place.1
  }

  /** A reply ever sent to the socket it arrives on. */
  predicate Arrives(addr: Binding, n: Net, e: UdpEvent)
    requires e.FromFar?
  {
    exists i :: 0 <= i < |n.wires| && n.wires[i].data == e.data && SentTo(n.wires[i], addr(e.sock))
  }

  /** The network may lose, reorder and repeat; a socket handle is used once. */
  predicate NetPossible(sc: UdpConfig, cc: UdpConfig, addr: Binding, n: Net, hop: NetHop) {
    match hop
    case AtServer(e) => UdpPossible(sc, n.server, e) && (e.FromClient? ==> e.handle !in n.server.owner)
    case AtClient(e) =>
      && UdpPossible(cc, n.client, e)
      && (e.FromClient? ==> e.handle !in n.client.owner)
      && (e.FromFar? ==> Arrives(addr, n, e))
  }

  ghost function NetStep(sc: UdpConfig, cc: UdpConfig, n: Net, hop: NetHop): Net {
    match hop
    case AtClient(e) => n.(client := UdpStep(cc, n.client, e))
    case AtServer(e) =>
      var v := UdpStep(sc, n.server, e);
      if e.FromFar? && |v.sent| > |n.server.sent| then
        Net(v, n.client, n.wires + [v.sent[|v.sent| - 1]], n.origins + [Origin(e.sock, e.ip, e.port, e.data)])
      else n.(server := v)
  }

  /** However a client's decrypting side stands, this datagram decrypts to the packed origin and its payload. */
  ghost predicate Carries(p: Profile, wire: Bytes, o: Origin) {
    forall s: EncState :: DecryptAll(p, s, wire).1 == PackIP(o.ip, o.port) + o.payload
  }

  /** The wire carries the origin to whoever opened the server's socket. */
  ghost predicate Answers(sc: UdpConfig, owner: map<Sock, Endpoint>, wire: Packet, o: Origin) {
    && Carries(sc.p, wire.data, o)
    && o.sock in owner && IsClient(sc.q, owner[o.sock])
    && wire.ip == FirstIP(owner[o.sock]) && wire.port == owner[o.sock].port
  }

  /**
   reply is the section 7 form of origin o, sent to the application that the client's socket s was created
   for; and a datagram from s opened the server's socket on which o came in.
   */
  predicate ReplyTo(sc: UdpConfig, addr: Binding, n: Net, reply: Packet, o: Origin, s: Sock) {
    && s in n.client.owner
    && o.sock in n.server.owner && n.server.owner[o.sock] == ClientOf(sc.q, addr(s).0, addr(s).1)
    && reply == Packet(None, Relayed(o.ip, o.port, o.payload), FirstIP(n.client.owner[s]), n.client.owner[s].port)
  }

  ghost predicate Genuine(sc: UdpConfig, addr: Binding, n: Net, reply: Packet) {
    exists i, s :: 0 <= i < |n.origins| && ReplyTo(sc, addr, n, reply, n.origins[i], s)
  }

  ghost predicate NetOk(sc: UdpConfig, cc: UdpConfig, addr: Binding, n: Net) {
    && CacheOk(sc, n.server) && CacheOk(cc, n.client)
    && |n.wires| == |n.origins|
    && (forall i :: 0 <= i < |n.wires| ==> Answers(sc, n.server.owner, n.wires[i], n.origins[i]))
    && (forall i :: 0 <= i < |n.client.sent| && n.client.sent[i].via == None ==>
          Genuine(sc, addr, n, n.client.sent[i]))
  }

  predicate Extends(a: map<Sock, Endpoint>, b: map<Sock, Endpoint>) {
    forall s :: s in a ==> s in b && b[s] == a[s]
  }

  lemma NetStepOk(sc: UdpConfig, cc: UdpConfig, addr: Binding, n: Net, hop: NetHop)
    requires !sc.isLocal && cc.isLocal && sc.p == cc.p && ValidText(sc.q) && ValidText(cc.q)
    requires NetOk(sc, cc, addr, n) && NetPossible(sc, cc, addr, n, hop)
    ensures NetOk(sc, cc, addr, NetStep(sc, cc, n, hop))
  {
    hide CacheOk, Answers, Genuine, UdpStep, Arrives, Extends;
    var m := NetStep(sc, cc, n, hop);
    var c, u := if hop.AtServer? then sc else cc, if hop.AtServer? then n.server else n.client;
    UdpStepOk(c, u, hop.e);
    OwnerExtends(c, u, hop.e);
    ExtendsItself(n);
    forall reply | Genuine(sc, addr, n, reply)
      ensures Genuine(sc, addr, m, reply)
    {
      GenuineStays(sc, addr, n, m, reply);
    }
    forall i | 0 <= i < |n.wires|
      ensures Answers(sc, m.server.owner, n.wires[i], n.origins[i])
    {
      AnswersStays(sc, n.server.owner, m.server.owner, n.wires[i], n.origins[i]);
    }
    match hop
    case AtServer(e) =>
      if e.FromFar? {
        ServerReply(sc, n.server, e);
      }
    case AtClient(e) =>
      if e.FromFar? {
        Delivered(sc, cc, addr, n, e);
      } else {
        NoReplyOtherwise(cc, n.client, e);
      }
  }

  lemma OwnerExtends(c: UdpConfig, u: Udp, e: UdpEvent)
    requires e.FromClient? ==> e.handle !in u.owner
    ensures Extends(u.owner, UdpStep(c, u, e).owner)
    ensures !e.FromClient? ==> UdpStep(c, u, e).owner == u.owner
  {
    hide DecryptAll, EncryptAll, ParseHeader, PackIP;
    if e.FromClient? {
      AdmitKeeps(c, u, e);
    }
  }

  lemma ExtendsItself(n: Net)
    ensures Extends(n.server.owner, n.server.owner) && Extends(n.client.owner, n.client.owner)
  {
  }

  lemma GenuineStays(sc: UdpConfig, addr: Binding, n: Net, m: Net, reply: Packet)
    requires Genuine(sc, addr, n, reply) && n.origins <= m.origins
    requires Extends(n.server.owner, m.server.owner) && Extends(n.client.owner, m.client.owner)
    ensures Genuine(sc, addr, m, reply)
  {
    var i, s :| 0 <= i < |n.origins| && ReplyTo(sc, addr, n, reply, n.origins[i], s);
    assert m.origins[i] == n.origins[i];
    assert ReplyTo(sc, addr, m, reply, m.origins[i], s);
  }

  lemma AnswersStays(sc: UdpConfig, a: map<Sock, Endpoint>, b: map<Sock, Endpoint>, wire: Packet, o: Origin)
    requires Answers(sc, a, wire, o) && Extends(a, b)
    ensures Answers(sc, b, wire, o)
  {
    hide Carries;
  }

  lemma ServerReply(sc: UdpConfig, u: Udp, e: UdpEvent)
    requires !sc.isLocal && e.FromFar? && CacheOk(sc, u)
    ensures var v := UdpStep(sc, u, e);
      && |u.sent| <= |v.sent|
      && (|v.sent| > |u.sent| ==>
            Answers(sc, v.owner, v.sent[|v.sent| - 1], Origin(e.sock, e.ip, e.port, e.data)))
  {
    hide PackIP, EncryptAll, DecryptAll;
    CacheBijective(sc, u);
    forall s: EncState
      ensures DecryptAll(sc.p, s, EncryptAll(sc.p, u.enc, PackIP(e.ip, e.port) + e.data, e.draw).1).1
           == PackIP(e.ip, e.port) + e.data
    {
      DatagramRoundTrip(sc.p, u.enc, PackIP(e.ip, e.port) + e.data, e.draw, s);
    }
  }

  /** A reply that arrives is passed on to the application behind the socket, if there still is one. */
  lemma Delivered(sc: UdpConfig, cc: UdpConfig, addr: Binding, n: Net, e: UdpEvent)
    requires cc.isLocal && sc.p == cc.p && NetOk(sc, cc, addr, n) && e.FromFar? && Arrives(addr, n, e)
    ensures var m := NetStep(sc, cc, n, AtClient(e));
      && n.client.sent <= m.client.sent && |m.client.sent| <= |n.client.sent| + 1
      && (|m.client.sent| > |n.client.sent| ==> Genuine(sc, addr, m, m.client.sent[|n.client.sent|]))
  {
    hide Carries, CacheOk, Genuine;
    var m := NetStep(sc, cc, n, AtClient(e));
    var i :| 0 <= i < |n.wires| && n.wires[i].data == e.data && SentTo(n.wires[i], addr(e.sock));
    assert Answers(sc, n.server.owner, n.wires[i], n.origins[i]);
    ClientReply(cc, n.client, e, n.origins[i]);
    if |m.client.sent| > |n.client.sent| {
      IsGenuine(sc, addr, m, m.client.sent[|n.client.sent|], i, e.sock);
    }
  }

  lemma IsGenuine(sc: UdpConfig, addr: Binding, n: Net, reply: Packet, i: nat, s: Sock)
    requires i < |n.origins| && ReplyTo(sc, addr, n, reply, n.origins[i], s)
    ensures Genuine(sc, addr, n, reply)
  {
  }

  lemma ClientReply(cc: UdpConfig, u: Udp, e: UdpEvent, o: Origin)
    requires cc.isLocal && e.FromFar? && CacheOk(cc, u) && Carries(cc.p, e.data, o)
    ensures var v := UdpStep(cc, u, e);
      && u.sent <= v.sent && |v.sent| <= |u.sent| + 1 && v.owner == u.owner
      && (|v.sent| > |u.sent| ==>
            && e.sock in u.owner
            && v.sent[|u.sent|] == Packet(None, Relayed(o.ip, o.port, o.payload),
                                          FirstIP(u.owner[e.sock]), u.owner[e.sock].port))
  {
    hide PackIP, ParseHeader, DecryptAll;
    CacheBijective(cc, u);
    assert [0, 0, 0] + (PackIP(o.ip, o.port) + o.payload) == Relayed(o.ip, o.port, o.payload);
  }

  lemma NoReplyOtherwise(cc: UdpConfig, u: Udp, e: UdpEvent)
    requires !e.FromFar?
    ensures var v := UdpStep(cc, u, e);
      u.sent <= v.sent && forall i :: |u.sent| <= i < |v.sent| ==> v.sent[i].via != None
  {
    hide ParseHeader, DecryptAll, EncryptAll;
    if e.FromClient? {
      AdmitKeeps(cc, u, e);
    }
  }

  ghost predicate NetRun(sc: UdpConfig, cc: UdpConfig, addr: Binding, n0: Net, hops: seq<NetHop>, ns: seq<Net>) {
    && |ns| == |hops| + 1 && ns[0] == n0
    && forall i :: 0 <= i < |hops| ==>
         NetPossible(sc, cc, addr, ns[i], hops[i]) && ns[i + 1] == NetStep(sc, cc, ns[i], hops[i])
  }

  /**
   Under any loss, reordering and duplication, in every state of every run, every reply an application has
   received is the section 7 form of a datagram some far host sent, with its true source and payload, to a
   server socket that was opened by a datagram from the socket the client had created for this application.
   */
  lemma {:induction false} RepliesGenuine(sc: UdpConfig, cc: UdpConfig, addr: Binding, siv: Bytes, civ: Bytes,
                                          hops: seq<NetHop>, ns: seq<Net>, k: nat)
    requires !sc.isLocal && cc.isLocal && sc.p == cc.p && ValidText(sc.q) && ValidText(cc.q)
    requires |siv| == |civ| == sc.p.ivLen
    requires NetRun(sc, cc, addr, Net(NewRelay(siv), NewRelay(civ), [], []), hops, ns) && k < |ns|
    ensures NetOk(sc, cc, addr, ns[k])
    ensures forall i :: 0 <= i < |ns[k].client.sent| && ns[k].client.sent[i].via == None ==>
      Genuine(sc, addr, ns[k], ns[k].client.sent[i])
  {
    hide NetStep, NetPossible, Genuine, Answers;
    if k != 0 {
      RepliesGenuine(sc, cc, addr, siv, civ, hops, ns, k - 1);
      NetStepOk(sc, cc, addr, ns[k - 1], hops[k - 1]);
    }
  }

  /** If no two sockets are bound alike, all replies that came in on one server socket go to one application. */
  lemma OneApplicationPerSocket(sc: UdpConfig, addr: Binding, n: Net, reply: Packet, o: Origin, s: Sock,
                                reply': Packet, o': Origin, s': Sock)
    requires forall a, b :: a in n.client.owner && b in n.client.owner && addr(a) == addr(b) ==> a == b
    requires ReplyTo(sc, addr, n, reply, o, s) && ReplyTo(sc, addr, n, reply', o', s')
    requires o.sock == o'.sock
    ensures s == s' && reply.ip == reply'.ip && reply.port == reply'.port
  {
    assert ClientOf(sc.q, addr(s).0, addr(s).1).ips[0] == ClientOf(sc.q, addr(s').0, addr(s').1).ips[0];
    assert addr(s) == addr(s');
  }

  // ----- Requests -----

  /**
   Request path: the server cuts ten bytes off the end although nothing put them there, so a payload is
   forwarded unchanged exactly when it is shorter than that.
   */
  lemma RequestCut(sc: UdpConfig, u: Udp, e: UdpEvent, head: Bytes, payload: Bytes)
    requires !sc.isLocal && e.FromClient? && !e.banned && |e.data| <= RECV_SIZE
    requires DecryptAll(sc.p, u.enc, e.data).1 == head + payload
    requires ParseHeader(sc.q, head + payload, sc.junk).Header?
    requires ParseHeader(sc.q, head + payload, sc.junk).len == |head|
    ensures var v := UdpStep(sc, u, e);
      && |v.sent| == |u.sent| + 1
      && v.sent[|u.sent|].data == (if |payload| < 10 then payload else payload[..|payload| - 10])
      && (v.sent[|u.sent|].data == payload <==> |payload| < 10)
      && ClientOf(sc.q, e.ip, e.port) in v.cache
      && v.sent[|u.sent|].via == Some(v.cache[ClientOf(sc.q, e.ip, e.port)])
      && var dest := ParseHeader(sc.q, head + payload, sc.junk).dest;
         && v.sent[|u.sent|].port == dest.port
         && v.sent[|u.sent|].ip == (if dest.ips != [] then Some(dest.ips[0])
                                    else if e.answer != [] then Some(e.answer[0]) else None)
  {
    hide ParseHeader, DecryptAll;
    AdmitKeeps(sc, u, e);
    var plain := head + payload;
    assert Drop(plain, |head|) == payload;
  }

  /**
   A server forwards a datagram exactly if it is not too long, its sender is not banned, and what it decrypts to
   begins with a header; of any other it creates no socket. A banned sender's or overlong one changes nothing.
   */
  lemma ForwardedExactly(sc: UdpConfig, u: Udp, e: UdpEvent)
    requires !sc.isLocal && e.FromClient?
    ensures var v := UdpStep(sc, u, e);
      var served := |e.data| <= 65536 && !e.banned
                    && ParseHeader(sc.q, DecryptAll(sc.p, u.enc, e.data).1, sc.junk).Header?;
      && |v.sent| == (if served then |u.sent| + 1 else |u.sent|)
      && (!served ==> v.sent == u.sent && v.cache == u.cache)
      && (e.banned || |e.data| > 65536 ==> v == u)
  {
    hide ParseHeader, DecryptAll;
    AdmitKeeps(sc, u, e);
  }

  /**
   A datagram that ends within its header: ignored, unless parseHeader does not notice the cut. Then the server
   sends one empty datagram to a misread port.
   */
  lemma RequestHeaderCut(sc: UdpConfig, u: Udp, e: UdpEvent, head: Bytes, n: nat)
    requires !sc.isLocal && e.FromClient? && !e.banned && |e.data| <= RECV_SIZE
    requires IsHeader(sc.q, head) && n < |head|
    requires DecryptAll(sc.p, u.enc, e.data).1 == head[..n]
    ensures var v := UdpStep(sc, u, e);
      if CutUnnoticed(head, n) then
        && |v.sent| == |u.sent| + 1
        && v.sent[|u.sent|].data == [] && v.sent[|u.sent|].port == MisreadPort(head, n, sc.junk)
        && v.sent[|u.sent|].ip == FirstIP(Dest(Destination(sc.q, head), e.answer))
      else v.sent == u.sent && v.cache == u.cache
  {
    hide ParseHeader, DecryptAll, MisreadPort;
    AdmitKeeps(sc, u, e);
    CutHeader(sc.q, head, n, sc.junk);
  }

  /** A SOCKS5 datagram reaches the server as its header and payload, from any state of either side. */
  lemma RequestReaches(cc: UdpConfig, u: Udp, e: UdpEvent, sc: UdpConfig, s: EncState)
    requires cc.isLocal && !sc.isLocal && cc.p == sc.p && e.FromClient? && CacheOk(cc, u)
    requires |e.data| <= RECV_SIZE
    ensures var v := UdpStep(cc, u, e);
      if At(e.data, 2) == 0 && ParseHeader(cc.q, Drop(e.data, 3), cc.junk).Header? then
        && |v.sent| == |u.sent| + 1
        && DecryptAll(sc.p, s, v.sent[|u.sent|].data).1 == Drop(e.data, 3)
        && ClientOf(cc.q, e.ip, e.port) in v.cache
        && v.sent[|u.sent|].via == Some(v.cache[ClientOf(cc.q, e.ip, e.port)])
        && v.sent[|u.sent|].port == cc.server.port
        && v.sent[|u.sent|].ip == (if cc.server.ips != [] then Some(cc.server.ips[0])
                                   else if e.answer != [] then Some(e.answer[0]) else None)
      else v == u
  {
    hide ParseHeader, DecryptAll, EncryptAll;
    DatagramRoundTrip(cc.p, u.enc, Drop(e.data, 3), e.draw, s);
  }

  /** A client ignores the same cut datagrams and passes the others on. */
  lemma ClientHeaderCut(cc: UdpConfig, u: Udp, e: UdpEvent, pre: Bytes, head: Bytes, n: nat)
    requires cc.isLocal && e.FromClient? && |e.data| <= RECV_SIZE && CacheOk(cc, u)
    requires |pre| == 3 && pre[2] == 0
    requires IsHeader(cc.q, head) && n < |head| && e.data == pre + head[..n]
    ensures var v := UdpStep(cc, u, e);
      if CutUnnoticed(head, n) then
        && |v.sent| == |u.sent| + 1
        && forall s: EncState :: DecryptAll(cc.p, s, v.sent[|u.sent|].data).1 == head[..n]
      else v == u
  {
    hide ParseHeader, DecryptAll, MisreadPort, UdpStep;
    assert Drop(e.data, 3) == head[..n] && At(e.data, 2) == 0;
    CutHeader(cc.q, head, n, cc.junk);
    var sc := cc.(isLocal := false);
    forall s: EncState
      ensures CutUnnoticed(head, n) ==>
        && |UdpStep(cc, u, e).sent| == |u.sent| + 1
        && DecryptAll(cc.p, s, UdpStep(cc, u, e).sent[|u.sent|].data).1 == head[..n]
      ensures !CutUnnoticed(head, n) ==> UdpStep(cc, u, e) == u
    {
      RequestReaches(cc, u, e, sc, s);
    }
    RequestReaches(cc, u, e, sc, u.enc);
  }
}
