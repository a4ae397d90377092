/** The TcpRelay object: each slot is proved against the step machine. */
module TcpRelayObject {
  import opened ByteStrings
  import opened Streams
  import opened Addresses
  import opened EncryptorObject
  import opened RelaySpec
  import IVUse

  /** What a relay keeps besides the stage invariants of its runs: outstanding lookups belong to addresses without an IP. */
  predicate WellFormed(r: Relay) {
    && (r.pending != NoLookup ==> (r.stage == DNS || r.stage == DESTROYED) && r.link == Idle)
    && (r.stage == INIT || r.stage == ADDR ==> r.link == Idle)
    && (r.pending == ServerLookup ==> r.serverAddress.ips == [])
    && (r.pending == RemoteLookup ==> r.remoteAddress.ips == [])
  }

  lemma StepWellFormed(c: Config, r: Relay, e: Event)
    requires WellFormed(r) && Possible(r, e)
    ensures WellFormed(Step(c, r, e))
  {
    hide Encrypt, Decrypt, ParseHeader, PackIP;
  }

  lemma PendingLacksIPs(r: Relay)
    requires WellFormed(r)
    ensures r.pending == ServerLookup ==> r.serverAddress.ips == []
    ensures r.pending == RemoteLookup ==> r.remoteAddress.ips == []
  {
  }

  lemma TakeLocalWellFormed(c: Config, r: Relay, data: Bytes)
    requires WellFormed(r)
    ensures WellFormed(TakeLocal(c, r, data))
    ensures (c.isLocal && r.stage == ADDR) || (!c.isLocal && r.stage == INIT) ==>
      r.pending == NoLookup && r.link == Idle
  {
    hide Encrypt, ParseHeader, PackIP;
  }

  class TcpRelay {
    const c: Config
    const encryptor: Encryptor
    const remoteAddress: Address
    const serverAddress: Address

    var stage: Stage
    var dataToWrite: Bytes

    // The two sockets and the resolver, as far as the relay drives them.
    var localOpen: bool
    var toLocal: Bytes
    var link: Link
    var toRemote: Bytes
    var dialled: seq<(Option<IP>, bv16)>
    var pending: Lookup

    ghost function Repr(): set<object>
      reads this, encryptor
    {
      {this, remoteAddress, serverAddress} + encryptor.Repr
    }

    ghost predicate Valid()
      reads this, encryptor, Repr(), encryptor.enCipher, encryptor.deCipher
    {
      && this !in encryptor.Repr && remoteAddress !in encryptor.Repr && serverAddress !in encryptor.Repr
      && remoteAddress != serverAddress
      && encryptor.p == c.p && remoteAddress.q == c.q && serverAddress.q == c.q
      && WellFormed(View())
      && (forall i :: 0 <= i < |encryptor.calls| ==> encryptor.calls[i] != IVUse.EncryptAllOp)
      && remoteAddress.Valid() && serverAddress.Valid() && encryptor.Valid()
    }

    ghost function View(): Relay
      reads this, remoteAddress, serverAddress, encryptor, encryptor.enCipher, encryptor.deCipher
    {
      Relay(stage, remoteAddress.View(), serverAddress.View(), dataToWrite, encryptor.View(),
            localOpen, toLocal, link, toRemote, dialled, pending)
    }

    /**
     The encrypting ciphers a relay creates are keyed with different draws: no two have the same IV unless
     the random generator repeats itself.
     */
    lemma NoIVReuse()
      requires Valid()
      ensures IVUse.Logged(IVUse.Run(encryptor.calls), encryptor.drawn, encryptor.keys)
      ensures IVUse.Distinct(IVUse.Run(encryptor.calls).keyed)
      ensures IVUse.Distinct(encryptor.drawn) ==> IVUse.Distinct(encryptor.keys)
    {
      IVUse.NoReuseInRelays(encryptor.calls, encryptor.drawn, encryptor.keys);
    }

    constructor (c: Config, server: Address, draw: Bytes)
      requires ChaChaProfile(c.p) && |draw| == c.p.ivLen
      requires ValidText(c.q) && server.Valid() && server.q == c.q
      ensures Valid() && fresh(Repr())
      ensures this.c == c
      ensures View() == Start(server.View(), draw)
    {
      this.c := c;
      encryptor := new Encryptor(c.p, draw);
      remoteAddress := new Address(c.q);
      serverAddress := new Address.Copy(server);
      stage := INIT;
      dataToWrite := [];
      localOpen, toLocal := true, [];
      link, toRemote, dialled := Idle, [], [];
      pending := NoLookup;
    }

    method CloseRelay()
      modifies this
      ensures stage == DESTROYED && pending == old(pending)
      ensures if old(stage) == DESTROYED then localOpen == old(localOpen) && link == old(link)
              else !localOpen && link == Idle
      ensures unchanged(`dataToWrite, `toLocal, `toRemote, `dialled)
    {
      if stage == DESTROYED {
        return;
      }
      localOpen := false;
      link := Idle;
      stage := DESTROYED;
    }

    method WriteLocal(data: Bytes)
      modifies `toLocal
      ensures toLocal == if localOpen then old(toLocal) + data else old(toLocal)
    {
      if localOpen {
        toLocal := toLocal + data;
      }
    }

    method WriteToRemote(data: Bytes)
      modifies `toRemote
      ensures toRemote == if link == Up then old(toRemote) + data else old(toRemote)
    {
      if link == Up {
        toRemote := toRemote + data;
      }
    }

    /** sender is the address whose lookup is answered. */
    method OnDNSResolved(success: bool, sender: Address)
      modifies this
      ensures unchanged(`dataToWrite, `toLocal, `toRemote, `pending)
      ensures success ==> stage == CONNECTING && link == Dialing && localOpen == old(localOpen)
                          && dialled == old(dialled) + [(FirstIP(sender.View()), sender.port)]
      ensures !success ==>
        && stage == DESTROYED && dialled == old(dialled)
        && if old(stage) == DESTROYED then localOpen == old(localOpen) && link == old(link)
           else !localOpen && link == Idle
    {
      if success {
        stage := CONNECTING;
        link := Dialing;
        dialled := dialled + [(if sender.ips == [] then None else Some(sender.ips[0]), sender.port)];
      } else {
        CloseRelay();
      }
    }

    method OnRemoteConnected()
      requires Valid() && Possible(View(), Connected)
      modifies this
      ensures Valid() && View() == OnConnected(old(View()))
    {
      hide Encryptor.Valid, Encryptor.View, Address.Valid, WellFormed;
      StepWellFormed(c, View(), Connected);
      stage := STREAM;
      link := Up;
      assert toRemote + [] == toRemote;
      if dataToWrite != [] {
        WriteToRemote(dataToWrite);
      }
      dataToWrite := [];
    }

    method OnSocketErrorOrTimeout()
      requires Valid()
      modifies this
      ensures Valid() && View() == Close(old(View()))
    {
      hide Encryptor.Valid, Encryptor.View, Address.Valid, WellFormed;
      StepWellFormed(c, View(), Failed);
      CloseRelay();
    }

    method OnLookUpFinished(answer: Option<seq<IP>>)
      requires Valid() && Possible(View(), LookupDone(answer))
      modifies Repr()
      ensures Valid() && Repr() == old(Repr()) && View() == OnLookupDone(old(View()), answer)
      ensures answer.Some? ==>
        dialled == old(dialled) + [(if answer.value == [] then None else Some(answer.value[0]),
                                    if old(pending) == ServerLookup then serverAddress.port else remoteAddress.port)]
    {
      hide Encryptor.Valid, Encryptor.View, Consistent, ValidText, WellFormed, ParseHeader, OnLocalRead, OnRemoteRead;
      StepWellFormed(c, View(), LookupDone(answer));
      PendingLacksIPs(View());
      if pending == ServerLookup {
        OnlyNamesLackIPs(c.q, serverAddress.View());
        pending := NoLookup;
        var success := serverAddress.OnLookUpFinished(answer);
        OnDNSResolved(success, serverAddress);
      } else {
        OnlyNamesLackIPs(c.q, remoteAddress.View());
        pending := NoLookup;
        var success := remoteAddress.OnLookUpFinished(answer);
        OnDNSResolved(success, remoteAddress);
      }
    }

    method OnRemoteTcpSocketReadyRead(data: Bytes)
      requires Valid() && Possible(View(), RemoteRead(data))
      modifies Repr()
      ensures Valid() && fresh(Repr() - old(Repr())) && View() == OnRemoteRead(c, old(View()), data)
    {
      hide Encryptor.Valid, Encryptor.View, Address.Valid, WellFormed, Encrypt, Decrypt;
      StepWellFormed(c, View(), RemoteRead(data));
      if data == [] {
        CloseRelay();
        return;
      }
      var buf;
      if c.isLocal {
        buf := encryptor.Decrypt(data);
      } else {
        buf := encryptor.Encrypt(data);
      }
      WriteLocal(buf);
    }

    /** The tail of handleStageAddr: parse, answer, queue, look up. */
    method TakeHeaderData(data: Bytes)
      requires Valid() && pending == NoLookup && link == Idle
      modifies Repr()
      ensures Valid() && fresh(Repr() - old(Repr())) && View() == TakeHeader(c, old(View()), data)
    {
      hide Encryptor.Valid, Encryptor.View, Address.Valid, ParseHeader, Accepted, WellFormed;
      StageWellFormed(View());
      var headerLength := ParseInto(data, remoteAddress, c.junk);
      if headerLength == 0 {
        StageWellFormed(Close(View()));
        CloseRelay();
        return;
      }
      StageWellFormed(View().(stage := DNS));
      stage := DNS;
      AcceptHeader(data, headerLength);
    }

    lemma StageWellFormed(r: Relay)
      requires r.pending == NoLookup && r.link == Idle
      ensures WellFormed(r)
    {
    }

    method AcceptHeader(data: Bytes, headerLength: nat)
      requires Valid() && stage == DNS && pending == NoLookup && link == Idle
      modifies Repr()
      ensures Valid() && fresh(Repr() - old(Repr())) && View() == Accepted(c, old(View()), data, headerLength)
    {
      hide Encryptor.Valid, Encryptor.View, Address.Valid, Encrypt, LookUpServer, LookUpRemote, WellFormed;
      if c.isLocal {
        AnswerAndQueue(data);
        StartLookUp(true);
      } else {
        StageWellFormed(Queue(View(), Drop(data, headerLength)));
        assert dataToWrite + [] == dataToWrite;
        if |data| > headerLength {
          dataToWrite := dataToWrite + data[headerLength..];
        }
        StartLookUp(false);
      }
    }

    /** A client accepts the request and queues it, encrypted with whatever came with it. */
    method AnswerAndQueue(data: Bytes)
      requires Valid() && stage == DNS
      modifies Repr()
      ensures Valid() && fresh(Repr() - old(Repr()))
      ensures var (r, out) := EncryptInto(c, RelaySpec.WriteLocal(old(View()), RESPONSE), data);
              View() == Queue(r, out)
    {
      hide Encryptor.Valid, Encryptor.View, Address.Valid, Encrypt;
      WriteLocal(RESPONSE);
      var out := encryptor.Encrypt(data);
      dataToWrite := dataToWrite + out;
    }

    /** lookUp on the proxy's address or on the parsed one. */
    method StartLookUp(proxy: bool)
      requires Valid() && stage == DNS && pending == NoLookup && link == Idle
      modifies this
      ensures Valid() && View() == if proxy then LookUpServer(old(View())) else LookUpRemote(old(View()))
    {
      hide Encryptor.Valid, Encryptor.View, Address.Valid;
      var address := if proxy then serverAddress else remoteAddress;
      var immediate := address.LookUp();
      if immediate {
        OnDNSResolved(true, address);
      } else {
        pending := if proxy then ServerLookup else RemoteLookup;
      }
    }

    method HandleStageAddrData(data: Bytes)
      requires Valid() && pending == NoLookup && link == Idle
      modifies Repr()
      ensures Valid() && fresh(Repr() - old(Repr())) && View() == HandleStageAddr(c, old(View()), data)
    {
      hide Encryptor.Valid, Encryptor.View, TakeHeader, PackIP;
      if c.isLocal {
        var cmd := At(data, 1);
        if cmd == 3 {
          WriteLocal(ASSOCIATE + PackIP(c.localIP, c.localPort));
          stage := UDP_ASSOC;
          return;
        } else if cmd != 1 {
          CloseRelay();
          return;
        }
        TakeHeaderData(Drop(data, 3));
      } else {
        TakeHeaderData(data);
      }
    }

    method OnLocalTcpSocketReadyRead(input: Bytes)
      requires Valid() && Possible(View(), LocalRead(input))
      modifies Repr()
      ensures Valid() && fresh(Repr() - old(Repr())) && View() == OnLocalRead(c, old(View()), input)
    {
      hide Encryptor.Valid, Encryptor.View, Encrypt, Decrypt, HandleStageAddr;
      if input == [] {
        CloseRelay();
        return;
      }
      var data := input;
      if !c.isLocal {
        data := encryptor.Decrypt(data);
        if data == [] {
          return;
        }
      }
      TakeLocalData(data);
    }

    /** The dispatch on the stage once the data is plain. */
    method TakeLocalData(input: Bytes)
      requires Valid()
      modifies Repr()
      ensures Valid() && fresh(Repr() - old(Repr())) && View() == TakeLocal(c, old(View()), input)
    {
      hide Encryptor.Valid, Encryptor.View, Address.Valid, Encrypt, HandleStageAddr, WellFormed;
      TakeLocalWellFormed(c, View(), input);
      var data := input;
      if stage == STREAM {
        if c.isLocal {
          data := encryptor.Encrypt(data);
        }
        WriteToRemote(data);
      } else if c.isLocal && stage == INIT {
        if At(data, 0) != 5 {
          WriteLocal(REJECT);
        } else {
          WriteLocal(ACCEPT);
        }
        stage := ADDR;
      } else if stage == CONNECTING || stage == DNS {
        if c.isLocal {
          data := encryptor.Encrypt(data);
        }
        dataToWrite := dataToWrite + data;
      } else if (c.isLocal && stage == ADDR) || (!c.isLocal && stage == INIT) {
        HandleStageAddrData(data);
      }
    }
  }
}
