/** What every run of a relay keeps, in client mode and in server mode. */
module RelayInvariants {
  import opened ByteStrings
  import opened Streams
  import opened Addresses
  import opened RelaySpec

  lemma EncryptEachAppend(p: Profile, s: EncState, parts: seq<Bytes>, d: Bytes)
    ensures var (t, w) := EncryptEach(p, s, parts);
      EncryptEach(p, s, parts + [d]) == (Encrypt(p, t, d).0, w + Encrypt(p, t, d).1)
  {
    FrontOfAppend(parts, d);
  }

  lemma DecryptEachAppend(p: Profile, s: EncState, parts: seq<Bytes>, d: Bytes)
    ensures var (t, w) := DecryptEach(p, s, parts);
      DecryptEach(p, s, parts + [d]) == (Decrypt(p, t, d).0, w + Decrypt(p, t, d).1)
  {
    FrontOfAppend(parts, d);
  }

  lemma NothingYet(p: Profile, s: EncState, x: Bytes, y: Bytes, z: Bytes)
    ensures EncryptEach(p, s, []) == (s, []) && DecryptEach(p, s, []) == (s, [])
    ensures x + y + [] == x + y && [] + y == y && x + (y + z) == x + y + z
  {
  }

  lemma UpsAppend(near: seq<Bytes>, d: Bytes)
    ensures |near| >= 2 ==> Ups(near + [d]) == Ups(near) + [d]
    ensures |near| == 1 ==> Ups(near + [d]) == [Drop(d, 3)]
    ensures near != [] ==> Greeting(near + [d]) == Greeting(near)
  {
    if |near| >= 2 {
      assert (near + [d])[2..] == near[2..] + [d];
    }
  }

  lemma RequestStays(c: Config, near: seq<Bytes>, d: Bytes)
    requires Requested(c, near)
    ensures Requested(c, near + [d])
  {
  }

  // ----- Client mode -----

  lemma ClientStart(c: Config, server: Endpoint, iv: Bytes)
    requires c.isLocal
    ensures ClientOk(c, server, iv, History(Start(server, iv), [], [], []))
  {
  }

  lemma ClientCloses(c: Config, server: Endpoint, iv: Bytes, h: History, e: Event)
    requires c.isLocal && ClientOk(c, server, iv, h) && Allowed(h, e)
    requires e == Failed || e == LocalRead([]) || e == RemoteRead([])
    ensures ClientOk(c, server, iv, Record(c, h, e))
  {
    hide EncryptEach, DecryptEach, PackIP, Requested;
    NothingYet(c.p, Fresh(iv), Greeting(h.near), RESPONSE, []);
  }

  lemma ClientGreeted(c: Config, server: Endpoint, iv: Bytes, h: History, data: Bytes)
    requires c.isLocal && ClientOk(c, server, iv, h) && h.r.stage == INIT && data != []
    ensures ClientOk(c, server, iv, Record(c, h, LocalRead(data)))
  {
    hide DecryptEach, PackIP;
  }

  lemma ClientDials(c: Config, server: Endpoint, iv: Bytes, h: History, e: Event)
    requires c.isLocal && ClientOk(c, server, iv, h) && Allowed(h, e)
    requires e.LookupDone? || e.Connected?
    ensures ClientOk(c, server, iv, Record(c, h, e))
  {
    hide EncryptEach, DecryptEach, PackIP, Requested;
    NothingYet(c.p, Fresh(iv), Greeting(h.near), RESPONSE, []);
  }

  lemma ClientRequested(c: Config, server: Endpoint, iv: Bytes, h: History, data: Bytes)
    requires c.isLocal && ClientOk(c, server, iv, h) && h.r.stage == ADDR && data != []
    ensures ClientOk(c, server, iv, Record(c, h, LocalRead(data)))
  {
    hide PackIP, ParseHeader, EncryptEach, DecryptEach, Encrypt;
    var fixed := Greeting(h.near);
    NothingYet(c.p, Fresh(iv), fixed, RESPONSE, []);
    NothingYet(c.p, Fresh(iv), fixed, ASSOCIATE, PackIP(c.localIP, c.localPort));
    UpsAppend(h.near, data);
    var g := Record(c, h, LocalRead(data));
    if At(data, 1) == 3 {
      assert g.r.toLocal == fixed + ASSOCIATE + PackIP(c.localIP, c.localPort);
    } else if At(data, 1) == 1 {
      EncryptLocal(c.p, h.r.enc, Fresh(iv), Drop(data, 3));
      OneCall(c.p, Fresh(iv), Drop(data, 3));
      if ParseHeader(c.q, Drop(data, 3), c.junk).Header? {
        assert Ups(g.near) == [Drop(data, 3)];
        assert [] + Encrypt(c.p, h.r.enc, Drop(data, 3)).1 == Encrypt(c.p, h.r.enc, Drop(data, 3)).1;
        assert g.r.toLocal == fixed + RESPONSE;
      }
    }
  }

  lemma ClientRelays(c: Config, server: Endpoint, iv: Bytes, h: History, data: Bytes)
    requires c.isLocal && ClientOk(c, server, iv, h) && data != [] && Running(h.r)
    ensures ClientOk(c, server, iv, Record(c, h, LocalRead(data)))
  {
    hide Encrypt, EncryptEach, DecryptEach, PackIP, Mask, Requested;
    RequestStays(c, h.near, data);
    UpsAppend(h.near, data);
    EncryptEachAppend(c.p, Fresh(iv), Ups(h.near), data);
    EncryptEachKeepsIV(c.p, Fresh(iv), Ups(h.near));
    EncryptLocal(c.p, h.r.enc, EncryptEach(c.p, Fresh(iv), Ups(h.near)).0, data);
  }

  lemma ClientAssociated(c: Config, server: Endpoint, iv: Bytes, h: History, data: Bytes)
    requires c.isLocal && ClientOk(c, server, iv, h) && data != [] && h.r.stage == UDP_ASSOC
    ensures ClientOk(c, server, iv, Record(c, h, LocalRead(data)))
  {
    hide EncryptEach, DecryptEach, PackIP, Requested;
    UpsAppend(h.near, data);
  }

  lemma ClientReplied(c: Config, server: Endpoint, iv: Bytes, h: History, data: Bytes)
    requires c.isLocal && ClientOk(c, server, iv, h) && h.r.stage == STREAM && data != []
    ensures ClientOk(c, server, iv, Record(c, h, RemoteRead(data)))
  {
    hide Decrypt, EncryptEach, DecryptEach, PackIP, Requested, Reaches;
    DecryptEachAppend(c.p, Fresh(iv), h.far, data);
    DecryptLocal(c.p, h.r.enc, DecryptEach(c.p, Fresh(iv), h.far).0, data);
  }

  lemma ClientStep(c: Config, server: Endpoint, iv: Bytes, h: History, e: Event)
    requires c.isLocal && ClientOk(c, server, iv, h) && Allowed(h, e)
    ensures ClientOk(c, server, iv, Record(c, h, e))
  {
    hide ClientUp, ClientDown, Record, Step;
    match e
    case LookupDone(_) => ClientDials(c, server, iv, h, e);
    case Connected => ClientDials(c, server, iv, h, e);
    case Failed => ClientCloses(c, server, iv, h, e);
    case RemoteRead(data) =>
      if data == [] {
        ClientCloses(c, server, iv, h, e);
      } else {
        ClientReplied(c, server, iv, h, data);
      }
    case LocalRead(data) =>
      if data == [] {
        ClientCloses(c, server, iv, h, e);
      } else if h.r.stage == INIT {
        ClientGreeted(c, server, iv, h, data);
      } else if h.r.stage == ADDR {
        ClientRequested(c, server, iv, h, data);
      } else if h.r.stage == UDP_ASSOC {
        ClientAssociated(c, server, iv, h, data);
      } else {
        ClientRelays(c, server, iv, h, data);
      }
  }

  // ----- Server mode -----

  lemma FirstPlainAppend(p: Profile, s: EncState, near: seq<Bytes>, d: Bytes)
    ensures FirstPlain(p, s, near + [d])
         == if FirstPlain(p, s, near) != [] then FirstPlain(p, s, near)
            else DecryptEach(p, s, near + [d]).1
    ensures FirstPlain(p, s, near) == [] ==> DecryptEach(p, s, near).1 == []
    ensures FirstPlain(p, s, near) <= DecryptEach(p, s, near).1
  {
    hide Decrypt;
    FrontOfAppend(near, d);
    FirstPlainPrefix(p, s, near);
  }

  lemma {:induction false} FirstPlainPrefix(p: Profile, s: EncState, near: seq<Bytes>)
    ensures FirstPlain(p, s, near) <= DecryptEach(p, s, near).1
    ensures FirstPlain(p, s, near) == [] ==> DecryptEach(p, s, near).1 == []
  {
    hide Decrypt;
    if near != [] {
      FirstPlainPrefix(p, s, Front(near));
    }
  }

  lemma ServerStart(c: Config, server: Endpoint, iv: Bytes)
    requires !c.isLocal
    ensures ServerOk(c, iv, History(Start(server, iv), [], [], []))
  {
  }

  lemma ServerCloses(c: Config, iv: Bytes, h: History, e: Event)
    requires !c.isLocal && ServerOk(c, iv, h) && Allowed(h, e)
    requires e == Failed || e == LocalRead([]) || e == RemoteRead([])
    ensures ServerOk(c, iv, Record(c, h, e))
  {
    hide EncryptEach, DecryptEach, ParseHeader, FirstPlain;
  }

  lemma ServerDials(c: Config, iv: Bytes, h: History, e: Event)
    requires !c.isLocal && ServerOk(c, iv, h) && Allowed(h, e)
    requires e.LookupDone? || e.Connected?
    ensures ServerOk(c, iv, Record(c, h, e))
  {
    hide EncryptEach, DecryptEach, ParseHeader, FirstPlain;
  }

  lemma ServerReplies(c: Config, iv: Bytes, h: History, data: Bytes)
    requires !c.isLocal && ServerOk(c, iv, h) && h.r.stage == STREAM && data != []
    ensures ServerOk(c, iv, Record(c, h, RemoteRead(data)))
  {
    hide EncryptEach, DecryptEach, ParseHeader, FirstPlain, Encrypt;
    EncryptEachAppend(c.p, Fresh(iv), h.far, data);
    EncryptEachKeepsIV(c.p, Fresh(iv), h.far);
    EncryptLocal(c.p, h.r.enc, EncryptEach(c.p, Fresh(iv), h.far).0, data);
  }

  lemma EncryptEachKeepsIV(p: Profile, s: EncState, parts: seq<Bytes>)
    ensures EncryptEach(p, s, parts).0.nextIV == s.nextIV
  {
    EncryptEachWire(p, s, parts);
  }

  lemma DropMore(x: Bytes, y: Bytes, k: nat)
    requires k <= |x|
    ensures Drop(x + y, k) == Drop(x, k) + y
  {
  }

  /** What one more fragment adds to the record of a server. */
  lemma ServerMore(c: Config, iv: Bytes, h: History, data: Bytes)
    requires !c.isLocal && ServerOk(c, iv, h)
    ensures var p, s, near := c.p, Fresh(iv), h.near + [data];
      var (t, out) := Decrypt(p, h.r.enc, data);
      && t.de == DecryptEach(p, s, near).0.de && t.en == h.r.enc.en && t.nextIV == h.r.enc.nextIV
      && DecryptEach(p, s, near).1 == DecryptEach(p, s, h.near).1 + out
      && (FirstPlain(p, s, h.near) != [] ==> FirstPlain(p, s, near) == FirstPlain(p, s, h.near))
      && (h.r.stage == INIT ==> FirstPlain(p, s, near) == out == DecryptEach(p, s, near).1)
      && FirstPlain(p, s, h.near) <= DecryptEach(p, s, h.near).1
  {
    hide EncryptEach, DecryptEach, FirstPlain, Decrypt, Carried, ServerTarget, ServerDown;
    var before := DecryptEach(c.p, Fresh(iv), h.near);
    DecryptEachAppend(c.p, Fresh(iv), h.near, data);
    DecryptLocal(c.p, h.r.enc, before.0, data);
    FirstPlainAppend(c.p, Fresh(iv), h.near, data);
    if h.r.stage == INIT {
      assert [] + Decrypt(c.p, h.r.enc, data).1 == Decrypt(c.p, h.r.enc, data).1;
    }
  }

  lemma ServerHears(c: Config, iv: Bytes, h: History, data: Bytes)
    requires !c.isLocal && ServerOk(c, iv, h) && data != [] && Running(h.r)
    ensures ServerOk(c, iv, Record(c, h, LocalRead(data)))
  {
    hide EncryptEach, DecryptEach, ParseHeader, FirstPlain, Decrypt;
    var plain, first := DecryptEach(c.p, Fresh(iv), h.near).1, FirstPlain(c.p, Fresh(iv), h.near);
    var out := Decrypt(c.p, h.r.enc, data).1;
    ServerMore(c, iv, h, data);
    PayloadMore(c, first, plain, out);
    assert out == [] ==> h.r.toRemote + out == h.r.toRemote && h.r.dataToWrite + out == h.r.dataToWrite;
  }

  lemma PayloadMore(c: Config, first: Bytes, plain: Bytes, out: Bytes)
    requires first <= plain && ParseHeader(c.q, first, c.junk).Header?
    ensures Payload(c, first, plain + out) == Payload(c, first, plain) + out
  {
    hide ParseHeader;
    var n := ParseHeader(c.q, first, c.junk).len;
    DropMore(plain, out, if n <= |first| then n else |first|);
  }

  lemma ServerWaits(c: Config, iv: Bytes, h: History, data: Bytes)
    requires !c.isLocal && ServerOk(c, iv, h) && data != [] && h.r.stage == INIT
    requires Decrypt(c.p, h.r.enc, data).1 == []
    ensures ServerOk(c, iv, Record(c, h, LocalRead(data)))
  {
    hide EncryptEach, DecryptEach, ParseHeader, FirstPlain, Decrypt;
    ServerMore(c, iv, h, data);
  }

  lemma ServerParses(c: Config, iv: Bytes, h: History, data: Bytes)
    requires !c.isLocal && ServerOk(c, iv, h) && data != [] && h.r.stage == INIT
    requires Decrypt(c.p, h.r.enc, data).1 != []
    ensures ServerOk(c, iv, Record(c, h, LocalRead(data)))
  {
    hide *;
    if ParseHeader(c.q, Decrypt(c.p, h.r.enc, data).1, c.junk).Header? {
      ServerAccepts(c, iv, h, data);
    } else {
      ServerRefuses(c, iv, h, data);
    }
  }

  lemma ServerRefuses(c: Config, iv: Bytes, h: History, data: Bytes)
    requires !c.isLocal && ServerOk(c, iv, h) && data != [] && h.r.stage == INIT
    requires Decrypt(c.p, h.r.enc, data).1 != []
    requires !ParseHeader(c.q, Decrypt(c.p, h.r.enc, data).1, c.junk).Header?
    ensures ServerOk(c, iv, Record(c, h, LocalRead(data)))
  {
    hide EncryptEach, DecryptEach, ParseHeader, FirstPlain, Decrypt, Payload;
    var (s, out) := Decrypt(c.p, h.r.enc, data);
    ServerMore(c, iv, h, data);
    assert Record(c, h, LocalRead(data)).r == Close(h.r.(enc := s));
  }

  lemma ServerAccepts(c: Config, iv: Bytes, h: History, data: Bytes)
    requires !c.isLocal && ServerOk(c, iv, h) && data != [] && h.r.stage == INIT
    requires Decrypt(c.p, h.r.enc, data).1 != []
    requires ParseHeader(c.q, Decrypt(c.p, h.r.enc, data).1, c.junk).Header?
    ensures ServerOk(c, iv, Record(c, h, LocalRead(data)))
  {
    hide EncryptEach, DecryptEach, ParseHeader, FirstPlain, Decrypt, Payload;
    var (s, out) := Decrypt(c.p, h.r.enc, data);
    ServerMore(c, iv, h, data);
    var r, header := h.r.(enc := s), ParseHeader(c.q, out, c.junk);
    var queued := r.(remoteAddress := header.dest, stage := DNS, dataToWrite := Drop(out, header.len));
    assert [] + Drop(out, header.len) == Drop(out, header.len);
    FirstPayload(c, out);
    assert Record(c, h, LocalRead(data)).r == LookUpRemote(queued);
  }

  lemma FirstPayload(c: Config, out: Bytes)
    requires ParseHeader(c.q, out, c.junk).Header?
    ensures Payload(c, out, out) == Drop(out, ParseHeader(c.q, out, c.junk).len)
  {
    hide ParseHeader;
  }

  lemma ServerStages(c: Config, iv: Bytes, h: History)
    requires ServerOk(c, iv, h)
    ensures h.r.stage == INIT || h.r.stage == DESTROYED || Running(h.r)
  {
    hide EncryptEach, DecryptEach, ParseHeader, FirstPlain;
  }

  lemma ServerStep(c: Config, iv: Bytes, h: History, e: Event)
    requires !c.isLocal && ServerOk(c, iv, h) && Allowed(h, e)
    ensures ServerOk(c, iv, Record(c, h, e))
  {
    hide ServerUp, ServerDown, ServerTarget, Record, Step, Decrypt;
    match e
    case LookupDone(_) => ServerDials(c, iv, h, e);
    case Connected => ServerDials(c, iv, h, e);
    case Failed => ServerCloses(c, iv, h, e);
    case RemoteRead(data) =>
      if data == [] {
        ServerCloses(c, iv, h, e);
      } else {
        ServerReplies(c, iv, h, data);
      }
    case LocalRead(data) =>
      if data == [] {
        ServerCloses(c, iv, h, e);
      } else if h.r.stage == INIT && Decrypt(c.p, h.r.enc, data).1 != [] {
        ServerParses(c, iv, h, data);
      } else if h.r.stage == INIT {
        ServerWaits(c, iv, h, data);
      } else {
        assert Running(h.r) by { ServerStages(c, iv, h); }
        ServerHears(c, iv, h, data);
      }
  }

  // ----- Runs of a single relay -----

  /** hs is a run from a fresh relay in which no lookup answer arrives after close. */
  predicate IsRelayRun(c: Config, server: Endpoint, iv: Bytes, events: seq<Event>, hs: seq<History>) {
    && |hs| == |events| + 1 && hs[0] == History(Start(server, iv), [], [], [])
    && forall i :: 0 <= i < |events| ==> Allowed(hs[i], events[i]) && hs[i + 1] == Record(c, hs[i], events[i])
  }

  lemma {:induction false} RelayRunOk(c: Config, server: Endpoint, iv: Bytes, events: seq<Event>,
                                      hs: seq<History>, k: nat)
    requires IsRelayRun(c, server, iv, events, hs) && k < |hs|
    ensures if c.isLocal then ClientOk(c, server, iv, hs[k]) else ServerOk(c, iv, hs[k])
  {
    hide ClientOk, ServerOk, Allowed, Record;
    if k == 0 {
      if c.isLocal {
        ClientStart(c, server, iv);
      } else {
        ServerStart(c, server, iv);
      }
    } else {
      RelayRunOk(c, server, iv, events, hs, k - 1);
      assert Allowed(hs[k - 1], events[k - 1]);
      if c.isLocal {
        ClientStep(c, server, iv, hs[k - 1], events[k - 1]);
      } else {
        ServerStep(c, iv, hs[k - 1], events[k - 1]);
      }
    }
  }

  /** text waits for the connection or, once connected, has been written. */
  predicate Buffered(r: Relay, text: Bytes) {
    if r.stage == STREAM then r.dataToWrite == [] && r.toRemote == text
    else r.toRemote == [] && r.dataToWrite == text
  }

  /**
   Client buffering in every state of every run: nothing leaves or is queued before the request; while the
   proxy is looked up and dialled, the queue is the IV and the encryption of the request's header and all
   payload so far; once connected the queue is empty and that same string has been written.
   */
  lemma ClientBuffering(c: Config, server: Endpoint, iv: Bytes, events: seq<Event>, hs: seq<History>, k: nat)
    requires c.isLocal && IsRelayRun(c, server, iv, events, hs) && k < |hs|
    ensures var r, near := hs[k].r, hs[k].near;
      && (r.stage == INIT || r.stage == ADDR || r.stage == UDP_ASSOC ==> r.toRemote == r.dataToWrite == [])
      && (r.dialled != [] ==> r.dialled == [(FirstIP(r.serverAddress), server.port)]
                              && r.serverAddress.text == server.text)
      && Reaches(server, hs[k].answers, r.dialled)
      && (Running(r) ==> |near| >= 2)
      && (Running(r) && |near| >= 2 ==>
            Buffered(r, iv + Mask(c.p, Stream(iv, 0), Drop(near[1], 3) + Flatten(near[2..]))))
  {
    hide Mask, EncryptEach, DecryptEach, ClientDown, SocketsOk;
    RelayRunOk(c, server, iv, events, hs, k);
    var near := hs[k].near;
    if |near| >= 2 {
      EncryptEachWire(c.p, Fresh(iv), Ups(near));
      FlattenConcat([Drop(near[1], 3)], near[2..]);
      assert Flatten([Drop(near[1], 3)]) == Drop(near[1], 3) + Flatten([]) == Drop(near[1], 3);
    }
  }

  /**
   Server buffering in every state of every run, with the header whole in the first decrypted fragment: the
   same of the decrypted bytes after the header, also when the header's IP is dialled at once.
   */
  lemma ServerBuffering(c: Config, server: Endpoint, iv: Bytes, events: seq<Event>, hs: seq<History>, k: nat)
    requires !c.isLocal && IsRelayRun(c, server, iv, events, hs) && k < |hs|
    ensures var r, near := hs[k].r, hs[k].near;
      var first, plain := FirstPlain(c.p, Fresh(iv), near), DecryptEach(c.p, Fresh(iv), near).1;
      && (r.stage == INIT ==> plain == [] && r.toRemote == r.dataToWrite == [])
      && (Running(r) ==> ParseHeader(c.q, first, c.junk).Header?)
      && (Running(r) && ParseHeader(c.q, first, c.junk).len <= |first| ==>
            ParseHeader(c.q, first, c.junk).len <= |plain|
            && Buffered(r, plain[ParseHeader(c.q, first, c.junk).len..]))
  {
    hide DecryptEach, EncryptEach, FirstPlain, ParseHeader, ServerDown, SocketsOk;
    RelayRunOk(c, server, iv, events, hs, k);
    FirstPlainPrefix(c.p, Fresh(iv), hs[k].near);
  }
}
