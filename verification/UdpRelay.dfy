/** The UdpRelay object: its slots are proved against the step machine, and its cache stays a bijection. */
module UdpRelayObject {
  import opened ByteStrings
  import opened Streams
  import opened Addresses
  import opened EncryptorObject
  import opened RelaySpec
  import opened UdpSpec
  import IVUse

  class UdpRelay {
    const c: UdpConfig
    const encryptor: Encryptor
    var cache: map<Endpoint, Sock>
    /** What the sockets have sent. */
    var sent: seq<Packet>
    /** Who each socket was created for. */
    ghost var owner: map<Sock, Endpoint>

    ghost function Repr(): set<object>
      reads encryptor
    {
      {this} + encryptor.Repr
    }

    ghost function View(): Udp
      reads this, encryptor, encryptor.enCipher, encryptor.deCipher
    {
      Udp(cache, encryptor.View(), sent, owner)
    }

    ghost predicate Valid()
      reads this, encryptor, Repr(), encryptor.enCipher, encryptor.deCipher
    {
      && this !in encryptor.Repr
      && encryptor.p == c.p && ValidText(c.q)
      && CacheOk(c, View())
      && (forall i :: 0 <= i < |encryptor.calls| ==> encryptor.calls[i] != IVUse.EncryptOp)
      && encryptor.Valid()
    }

    /**
     The encrypting ciphers a relay creates are keyed with different draws: no two have the same IV unless
     the random generator repeats itself.
     */
    lemma NoIVReuse()
      requires Valid()
      ensures IVUse.Logged(IVUse.Run(encryptor.calls), encryptor.drawn, encryptor.keys)
      ensures IVUse.Distinct(IVUse.Run(encryptor.calls).keyed)
      ensures IVUse.Distinct(encryptor.drawn) ==> IVUse.Distinct(encryptor.keys)
    {
      IVUse.NoReuseInRelays(encryptor.calls, encryptor.drawn, encryptor.keys);
    }

    constructor (c: UdpConfig, draw: Bytes)
      requires ChaChaProfile(c.p) && ValidText(c.q) && |draw| == c.p.ivLen
      ensures Valid() && fresh(Repr()) && this.c == c
      ensures View() == NewRelay(draw)
    {
      this.c := c;
      encryptor := new Encryptor(c.p, draw);
      cache := map[];
      sent := [];
      owner := map[];
    }

    method Close(draw: Bytes)
      requires Valid() && |draw| == c.p.ivLen
      modifies Repr()
      ensures Valid() && View() == UdpStep(c, old(View()), Closed(draw))
    {
      hide Encryptor.Valid, Encryptor.View;
      encryptor.Reset(draw);
      cache := map[];
    }

    /** cache.key: the client a socket is stored under, or the default address. */
    method Key(sock: Sock) returns (client: Endpoint)
      requires Valid()
      ensures client == KeyOf(cache, sock)
    {
      hide Encryptor.Valid, Encryptor.View;
      CacheBijective(c, View());
      if sock in cache.Values {
        client :| client in cache && cache[client] == sock;
        assert KeyOf(cache, cache[client]) == client;
      } else {
        client := BLANK;
      }
    }

    method OnClientDisconnected(sock: Sock)
      requires Valid()
      modifies this
      ensures Valid() && View() == UdpStep(c, old(View()), Disconnected(sock))
    {
      hide Encryptor.Valid, Encryptor.View;
      UdpStepOk(c, View(), Disconnected(sock));
      var client := Key(sock);
      cache := cache - {client};
    }

    method OnClientUdpSocketReadyRead(sock: Sock, data: Bytes, ip: IP, port: bv16, draw: Bytes)
      requires Valid() && |draw| == c.p.ivLen
      modifies Repr()
      ensures Valid() && fresh(Repr() - old(Repr()))
      ensures View() == UdpStep(c, old(View()), FromFar(sock, data, ip, port, draw))
    {
      hide Encryptor.Valid, Encryptor.View, EncryptAll, DecryptAll, PackIP, ParseHeader, CacheOk;
      UdpStepOk(c, View(), FromFar(sock, data, ip, port, draw));
      var clientAddress := Key(sock);
      if |data| > RECV_SIZE {
        return;
      }
      var response;
      if c.isLocal {
        var plain := encryptor.DecryptAll(data);
        if ParseHeader(c.q, plain, c.junk).NoHeader? {
          return;
        }
        response := [0, 0, 0] + plain;
      } else {
        response := encryptor.EncryptAll(PackIP(ip, port) + data, draw);
      }
      if clientAddress.port != 0 {
        sent := sent + [Packet(None, response, FirstIP(clientAddress), clientAddress.port)];
      }
    }

    method OnServerUdpSocketReadyRead(data: Bytes, ip: IP, port: bv16, handle: Sock, draw: Bytes,
                                      banned: bool, answer: seq<IP>)
      requires Valid() && |draw| == c.p.ivLen && handle !in cache.Values
      modifies Repr()
      ensures Valid() && fresh(Repr() - old(Repr()))
      ensures View() == UdpStep(c, old(View()), FromClient(data, ip, port, handle, draw, banned, answer))
    {
      hide Encryptor.Valid, Encryptor.View, EncryptAll, DecryptAll, ParseHeader, CacheOk;
      UdpStepOk(c, View(), FromClient(data, ip, port, handle, draw, banned, answer));
      if |data| > RECV_SIZE {
        return;
      }
      var plain;
      if c.isLocal {
        if At(data, 2) != 0 {
          return;
        }
        plain := Drop(data, 3);
      } else {
        if banned {
          return;
        }
        plain := encryptor.DecryptAll(data);
      }
      var header := ParseHeader(c.q, plain, c.junk);
      if header.NoHeader? {
        return;
      }
      var client := Lookup(ClientOf(c.q, ip, port), handle);
      Forward(plain, header.dest, header.len, client, draw, answer);
    }

    /** The socket of a client, created and stored on a miss. */
    method Lookup(client: Endpoint, handle: Sock) returns (sock: Sock)
      modifies this
      ensures (View(), sock) == Cached(old(View()), client, handle)
    {
      if client in cache {
        sock := cache[client];
      } else {
        sock := handle;
        cache := cache[client := handle];
        owner := owner[handle := client];
      }
    }

    method Forward(plain: Bytes, header: Endpoint, headerLength: nat, client: Sock, draw: Bytes, answer: seq<IP>)
      requires this !in encryptor.Repr && encryptor.p == c.p && encryptor.Valid() && |draw| == c.p.ivLen
      requires forall i :: 0 <= i < |encryptor.calls| ==> encryptor.calls[i] != IVUse.EncryptOp
      modifies Repr()
      ensures this !in encryptor.Repr && encryptor.Valid() && fresh(Repr() - old(Repr()))
      ensures forall i :: 0 <= i < |encryptor.calls| ==> encryptor.calls[i] != IVUse.EncryptOp
      ensures var u := old(View());
        View() == if c.isLocal then
          var (s, out) := EncryptAll(c.p, u.enc, plain, draw);
          var d := Dest(c.server, answer);
          u.(enc := s, sent := u.sent + [Packet(Some(client), out, FirstIP(d), d.port)])
        else
          var d := Dest(header, answer);
          u.(sent := u.sent + [Packet(Some(client),
            Mid(plain, headerLength, |plain| - headerLength - AUTH_LEN), FirstIP(d), d.port)])
    {
      hide Encryptor.Valid, Encryptor.View, EncryptAll;
      var data, dest;
      if c.isLocal {
        data := encryptor.EncryptAll(plain, draw);
        dest := c.server;
      } else {
        data := Mid(plain, headerLength, |plain| - headerLength - AUTH_LEN);
        dest := header;
      }
      if dest.ips == [] {
        dest := dest.(ips := answer);
      }
      sent := sent + [Packet(Some(client), data, FirstIP(dest), dest.port)];
    }
  }
}
