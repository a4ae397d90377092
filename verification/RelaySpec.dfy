/** The TCP relay as a step machine: what each slot does to the relay's state, sockets included. */
module RelaySpec {
  import opened Bits
  import opened ByteStrings
  import opened Streams
  import opened Addresses

  datatype Stage = INIT | ADDR | UDP_ASSOC | DNS | CONNECTING | STREAM | DESTROYED

  /** The remote socket: unconnected, after connectToHost, after its connected signal. */
  datatype Link = Idle | Dialing | Up

  /** The lookup whose answer is outstanding. */
  datatype Lookup = NoLookup | ServerLookup | RemoteLookup

  /** junk is whatever lies in memory past a buffer's terminator. */
  datatype Config = Config(p: Profile, q: Text, isLocal: bool, localIP: IP, localPort: bv16, junk: Byte)

  datatype Relay = Relay(
    stage: Stage,
    remoteAddress: Endpoint,
    serverAddress: Endpoint,
    dataToWrite: Bytes,
    enc: EncState,
    localOpen: bool,
    toLocal: Bytes,                          // everything written to the local socket
    link: Link,
    toRemote: Bytes,                         // everything written to the remote socket
    dialled: seq<(Option<IP>, bv16)>,        // every connectToHost
    pending: Lookup)

  datatype Event =
    | LocalRead(data: Bytes)
    | RemoteRead(data: Bytes)
    | LookupDone(answer: Option<seq<IP>>)
    | Connected
    | Failed                                 // a socket error, a disconnection or the timer

  const ACCEPT: Bytes := [5, 0]
  const REJECT: Bytes := [0, 91]
  const RESPONSE: Bytes := [5, 0, 0, 1, 0, 0, 0, 0, 16, 16]
  const ASSOCIATE: Bytes := [5, 0, 0]

  function Start(server: Endpoint, iv: Bytes): Relay {
    Relay(INIT, BLANK, server, [], EncState(iv, None, None, [], 0), true, [], Idle, [], [], NoLookup)
  }

  function Close(r: Relay): Relay {
    if r.stage == DESTROYED then r else r.(stage := DESTROYED, localOpen := false, link := Idle)
  }

  function WriteLocal(r: Relay, data: Bytes): Relay {
    if r.localOpen then r.(toLocal := r.toLocal + data) else r
  }

  function WriteRemote(r: Relay, data: Bytes): Relay {
    if r.link == Up then r.(toRemote := r.toRemote + data) else r
  }

  function FirstIP(a: Endpoint): Option<IP> {
    if a.ips == [] then None else Some(a.ips[0])
  }

  /** onDNSResolved: it does not look at the stage. */
  function Resolved(r: Relay, success: bool, a: Endpoint): Relay {
    if success then
      r.(stage := CONNECTING, link := Dialing, dialled := r.dialled + [(FirstIP(a), a.port)])
    else Close(r)
  }

  /** lookUp: an address with an IP answers at once. */
  function LookUpServer(r: Relay): Relay {
    if r.serverAddress.ips != [] then Resolved(r, true, r.serverAddress) else r.(pending := ServerLookup)
  }

  function LookUpRemote(r: Relay): Relay {
    if r.remoteAddress.ips != [] then Resolved(r, true, r.remoteAddress) else r.(pending := RemoteLookup)
  }

  function EncryptInto(c: Config, r: Relay, data: Bytes): (Relay, Bytes) {
    var (s, out) := Encrypt(c.p, r.enc, data);
    (r.(enc := s), out)
  }

  function Queue(r: Relay, data: Bytes): Relay {
    r.(dataToWrite := r.dataToWrite + data)
  }

  /** The address header and what follows it, in either mode. */
  function TakeHeader(c: Config, r: Relay, data: Bytes): Relay {
    match ParseHeader(c.q, data, c.junk)
    case NoHeader => Close(r)
    case Header(dest, n) => Accepted(c, r.(remoteAddress := dest, stage := DNS), data, n)
  }

  /** After a header of n bytes: a client encrypts header and payload, a server keeps the payload. */
  function Accepted(c: Config, r: Relay, data: Bytes, n: nat): Relay {
    if c.isLocal then
      var (r1, out) := EncryptInto(c, WriteLocal(r, RESPONSE), data);
      LookUpServer(Queue(r1, out))
    else
      LookUpRemote(Queue(r, Drop(data, n)))
  }

  function HandleStageAddr(c: Config, r: Relay, data: Bytes): Relay {
    if !c.isLocal then TakeHeader(c, r, data)
    else if At(data, 1) == 3 then
      WriteLocal(r, ASSOCIATE + PackIP(c.localIP, c.localPort)).(stage := UDP_ASSOC)
    else if At(data, 1) == 1 then TakeHeader(c, r, Drop(data, 3))
    else Close(r)
  }

  /** A read from the local side once decrypted, if that is needed. */
  function TakeLocal(c: Config, r: Relay, data: Bytes): Relay {
    if r.stage == STREAM then
      if c.isLocal then
        var (r1, out) := EncryptInto(c, r, data);
        WriteRemote(r1, out)
      else WriteRemote(r, data)
    else if c.isLocal && r.stage == INIT then
      WriteLocal(r, if At(data, 0) != 5 then REJECT else ACCEPT).(stage := ADDR)
    else if r.stage == CONNECTING || r.stage == DNS then
      if c.isLocal then
        var (r1, out) := EncryptInto(c, r, data);
        Queue(r1, out)
      else Queue(r, data)
    else if (c.isLocal && r.stage == ADDR) || (!c.isLocal && r.stage == INIT) then
      HandleStageAddr(c, r, data)
    else r
  }

  function OnLocalRead(c: Config, r: Relay, data: Bytes): Relay {
    if data == [] then Close(r)
    else if c.isLocal then TakeLocal(c, r, data)
    else
      var (s, plain) := Decrypt(c.p, r.enc, data);
      var r1 := r.(enc := s);
      if plain == [] then r1 else TakeLocal(c, r1, plain)
  }

  function OnRemoteRead(c: Config, r: Relay, data: Bytes): Relay {
    if data == [] then Close(r)
    else
      var (s, out) := if c.isLocal then Decrypt(c.p, r.enc, data) else Encrypt(c.p, r.enc, data);
      WriteLocal(r.(enc := s), out)
  }

  function OnConnected(r: Relay): Relay {
    var r1 := r.(stage := STREAM, link := Up);
    WriteRemote(r1, r.dataToWrite).(dataToWrite := [])
  }

  function OnLookupDone(r: Relay, answer: Option<seq<IP>>): Relay {
    var r1 := r.(pending := NoLookup);
    match answer
    case None => Resolved(r1, false, BLANK)
    case Some(ips) =>
      if r.pending == ServerLookup then
        Resolved(r1.(serverAddress := r.serverAddress.(ips := ips)), true, r.serverAddress.(ips := ips))
      else
        Resolved(r1.(remoteAddress := r.remoteAddress.(ips := ips)), true, r.remoteAddress.(ips := ips))
  }

  function Step(c: Config, r: Relay, e: Event): Relay {
    match e
    case LocalRead(data) => OnLocalRead(c, r, data)
    case RemoteRead(data) => OnRemoteRead(c, r, data)
    case LookupDone(answer) => OnLookupDone(r, answer)
    case Connected => OnConnected(r)
    case Failed => Close(r)
  }

  /** The events the sockets and the resolver can raise. */
  predicate Possible(r: Relay, e: Event) {
    match e
    case LocalRead(_) => r.localOpen
    case RemoteRead(_) => r.link == Up
    case LookupDone(_) => r.pending != NoLookup
    case Connected => r.link == Dialing
    case Failed => true
  }

  /** A lookup answer after close. */
  predicate Late(r: Relay, e: Event) {
    r.stage == DESTROYED && e.LookupDone?
  }

  /** Closing is final exactly as long as no successful lookup answer comes in afterwards. */
  lemma DestroyedExactly(c: Config, r: Relay, e: Event)
    requires r.stage == DESTROYED && r.link == Idle && !r.localOpen
    requires Possible(r, e)
    ensures Step(c, r, e).stage == DESTROYED <==> !(e.LookupDone? && e.answer.Some?)
    ensures Step(c, r, e).stage == DESTROYED ==>
      Step(c, r, e) == r.(pending := if e.LookupDone? then NoLookup else r.pending)
  {
  }

  /** A late answer revives the relay: it dials, and once connected sends what was queued. */
  lemma LateAnswerRevives(c: Config, r: Relay, ips: seq<IP>)
    requires r.stage == DESTROYED && r.pending != NoLookup && r.dataToWrite != []
    ensures var s := Step(c, r, LookupDone(Some(ips)));
      && s.stage == CONNECTING && |s.dialled| == |r.dialled| + 1
      && Possible(s, Connected)
      && Step(c, s, Connected).toRemote == r.toRemote + r.dataToWrite
      && Step(c, s, Connected).stage == STREAM
  {
  }

  /** A successful lookup makes the relay dial the first IP of the answer, at the port of the address looked up. */
  lemma LookupDials(c: Config, r: Relay, ips: seq<IP>)
    requires Possible(r, LookupDone(Some(ips)))
    ensures Step(c, r, LookupDone(Some(ips))).dialled == r.dialled +
      [(if ips == [] then None else Some(ips[0]),
        if r.pending == ServerLookup then r.serverAddress.port else r.remoteAddress.port)]
  {
  }

  /** Whether some possible event revives a closed relay is settled at closing time: a lookup is outstanding. */
  lemma RevivedExactly(c: Config, r: Relay)
    requires r.stage == DESTROYED && r.link == Idle && !r.localOpen
    ensures (exists e :: Possible(r, e) && Step(c, r, e).stage != DESTROYED) <==> r.pending != NoLookup
  {
    if r.pending != NoLookup {
      var e := LookupDone(Some([]));
      assert Possible(r, e) && Step(c, r, e).stage != DESTROYED;
    }
  }

  /**
   Such relays exist: with a proxy known by name only, any greeting and any connect request that is accepted,
   then a failure, leave a closed relay that holds the request; the lookup's answer revives it, and the proxy
   gets the request.
   */
  lemma RevivalHappens(c: Config, server: Endpoint, iv: Bytes, greeting: Bytes, request: Bytes, ips: seq<IP>)
    requires c.isLocal && server.ips == [] && greeting != []
    requires At(request, 1) == 1 && ParseHeader(c.q, Drop(request, 3), c.junk).Header?
    ensures var r0 := Start(server, iv);
      var r1 := Step(c, r0, LocalRead(greeting));
      var r2 := Step(c, r1, LocalRead(request));
      var r3 := Step(c, r2, Failed);
      var r4 := Step(c, r3, LookupDone(Some(ips)));
      var r5 := Step(c, r4, Connected);
      && Possible(r0, LocalRead(greeting)) && Possible(r1, LocalRead(request)) && Possible(r2, Failed)
      && r3.stage == DESTROYED && r3.pending == ServerLookup && r3.dataToWrite != []
      && Possible(r3, LookupDone(Some(ips))) && r4.stage == CONNECTING
      && Possible(r4, Connected) && r5.stage == STREAM
      && r5.toRemote == iv + Mask(c.p, Stream(iv, 0), Drop(request, 3))
  {
    hide ParseHeader, Mask, PackIP;
    if Drop(request, 3) == [] {
      NothingParsed(c.q, c.junk);
    }
  }

  /** A greeting that is not SOCKS5 is answered with a rejection, and the relay waits for a request all the same. */
  lemma RejectedGreetingProceeds(c: Config, r: Relay, data: Bytes)
    requires c.isLocal && r.stage == INIT && r.localOpen && data != []
    ensures var s := Step(c, r, LocalRead(data));
      && s.stage == ADDR
      && s.toLocal == r.toLocal + (if data[0] == 5 then [5, 0] else [0, 91])
  {
  }

  /** The replies to the requests that are served: a fixed one, or the address of the UDP relay. */
  lemma RequestAnswered(c: Config, r: Relay, data: Bytes)
    requires c.isLocal && r.stage == ADDR && r.localOpen
    ensures var s := Step(c, r, LocalRead(data));
      && (At(data, 1) == 1 && ParseHeader(c.q, Drop(data, 3), c.junk).Header? ==>
            s.toLocal == r.toLocal + [5, 0, 0, 1, 0, 0, 0, 0, 16, 16])
      && (At(data, 1) == 3 ==>
            s == r.(toLocal := r.toLocal + ([5, 0, 0] + PackIP(c.localIP, c.localPort)), stage := UDP_ASSOC))
  {
    hide ParseHeader, PackIP, Encrypt;
    if Drop(data, 3) == [] {
      NothingParsed(c.q, c.junk);
    }
  }

  /** A request that cannot be served: an unknown command, or no header where one must be. */
  predicate Refused(c: Config, data: Bytes) {
    if c.isLocal then
      At(data, 1) != 3 && (At(data, 1) == 1 ==> ParseHeader(c.q, Drop(data, 3), c.junk) == NoHeader)
    else ParseHeader(c.q, data, c.junk) == NoHeader
  }

  /** The events that end a relay. */
  predicate Ends(c: Config, r: Relay, e: Event) {
    match e
    case Failed => true
    case Connected => false
    case LookupDone(answer) => answer == None
    case RemoteRead(data) => data == []
    case LocalRead(data) =>
      data == [] ||
      if c.isLocal then r.stage == ADDR && Refused(c, data)
      else
        var plain := Decrypt(c.p, r.enc, data).1;
        r.stage == INIT && plain != [] && Refused(c, plain)
  }

  /** A relay closes on those events and no others, and then writes and dials nothing. */
  lemma ClosesExactly(c: Config, r: Relay, e: Event)
    requires r.stage != DESTROYED && Possible(r, e)
    ensures Step(c, r, e).stage == DESTROYED <==> Ends(c, r, e)
    ensures Ends(c, r, e) ==>
      var s := Step(c, r, e);
      && !s.localOpen && s.link == Idle
      && s.toLocal == r.toLocal && s.toRemote == r.toRemote && s.dialled == r.dialled
  {
    hide Encrypt, Decrypt, ParseHeader, PackIP;
    if e.LocalRead? && e.data != [] {
      var plain := if c.isLocal then e.data else Decrypt(c.p, r.enc, e.data).1;
      var s := if c.isLocal then r else r.(enc := Decrypt(c.p, r.enc, e.data).0);
      AddressStageCloses(c, s, plain);
    }
  }

  lemma AddressStageCloses(c: Config, r: Relay, data: Bytes)
    requires r.stage != DESTROYED
    ensures var s := HandleStageAddr(c, r, data);
      && (s.stage == DESTROYED <==> Refused(c, data))
      && (Refused(c, data) ==> s == Close(r))
  {
    hide Encrypt, ParseHeader, PackIP;
  }

  // ----- Headers in pieces -----

  /**
   A server whose first decrypted bytes are a proper prefix of a header closes, unless parseHeader does not
   notice the cut. Then it takes the name with a misread port, and nothing is queued.
   */
  lemma ServerSplitHeader(c: Config, r: Relay, data: Bytes, head: Bytes, n: nat)
    requires !c.isLocal && r.stage == INIT && data != []
    requires IsHeader(c.q, head) && 0 < n < |head|
    requires Decrypt(c.p, r.enc, data).1 == head[..n]
    ensures var s, dest := Step(c, r, LocalRead(data)), Destination(c.q, head);
      && (s.stage == DESTROYED <==> !CutUnnoticed(head, n))
      && (CutUnnoticed(head, n) ==>
            s.stage == (if dest.ips == [] then DNS else CONNECTING) && s.dataToWrite == r.dataToWrite
            && s.remoteAddress == dest.(port := MisreadPort(head, n, c.junk)))
  {
    hide Decrypt, ParseHeader, MisreadPort;
    CutHeader(c.q, head, n, c.junk);
    assert r.dataToWrite + [] == r.dataToWrite;
  }

  /** What then arrives is queued as payload: the rest of the header with it. */
  lemma SplitHeaderLeaks(c: Config, r: Relay, data: Bytes, head: Bytes, n: nat, more: Bytes, payload: Bytes)
    requires !c.isLocal && r.stage == INIT && data != [] && more != []
    requires IsHeader(c.q, head) && 0 < n < |head| && CutUnnoticed(head, n)
    requires Decrypt(c.p, r.enc, data).1 == head[..n]
    requires Decrypt(c.p, Step(c, r, LocalRead(data)).enc, more).1 == head[n..] + payload
    ensures Step(c, Step(c, r, LocalRead(data)), LocalRead(more)).dataToWrite
         == r.dataToWrite + head[n..] + payload
  {
    hide Decrypt, ParseHeader, MisreadPort;
    ServerSplitHeader(c, r, data, head, n);
    assert r.dataToWrite + (head[n..] + payload) == r.dataToWrite + head[n..] + payload;
  }

  /**
   A client whose request is cut within the header closes on the same cuts. On the others it takes the request,
   and the destination it passes on is unharmed: what it encrypts is the bytes it got, not the address it read.
   */
  lemma ClientSplitHeader(c: Config, r: Relay, pre: Bytes, head: Bytes, n: nat)
    requires c.isLocal && r.stage == ADDR && r.localOpen
    requires |pre| == 3 && pre[1] == 1
    requires IsHeader(c.q, head) && n < |head|
    ensures var s := Step(c, r, LocalRead(pre + head[..n]));
      && (s.stage == DESTROYED <==> !CutUnnoticed(head, n))
      && (CutUnnoticed(head, n) ==>
            s.stage == (if r.serverAddress.ips == [] then DNS else CONNECTING)
            && s.toLocal == r.toLocal + RESPONSE
            && s.dataToWrite == r.dataToWrite + Encrypt(c.p, r.enc, head[..n]).1)
  {
    hide Encrypt, ParseHeader, MisreadPort, PackIP;
    CutHeader(c.q, head, n, c.junk);
    assert Drop(pre + head[..n], 3) == head[..n];
  }

  // ----- Greetings in pieces -----

  /** Of the first read a client looks at the first byte only: whatever came with the greeting is gone. */
  lemma RequestWithGreeting(c: Config, r: Relay, greeting: Bytes, request: Bytes, next: Bytes)
    requires c.isLocal && r.stage == INIT && r.localOpen && greeting != [] && next != []
    ensures var s := Step(c, r, LocalRead(greeting + request));
      && s == Step(c, r, LocalRead(greeting))
      && (Step(c, s, LocalRead(next)).stage == DESTROYED <==> Refused(c, next))
  {
    hide ParseHeader, Encrypt, PackIP;
    AddressStageCloses(c, Step(c, r, LocalRead(greeting)), next);
  }

  /**
   A greeting cut in two is answered at its first byte, and the rest of it taken for the request. The plain
   greeting without authentication always ends the relay that way.
   */
  lemma GreetingCut(c: Config, r: Relay, greeting: Bytes, n: nat)
    requires c.isLocal && r.stage == INIT && r.localOpen && 0 < n < |greeting|
    ensures var s := Step(c, r, LocalRead(greeting[..n]));
      && s == Step(c, r, LocalRead(greeting))
      && (Step(c, s, LocalRead(greeting[n..])).stage == DESTROYED <==> Refused(c, greeting[n..]))
      && (greeting == [5, 1, 0] ==> Refused(c, greeting[n..]))
  {
    hide ParseHeader;
    assert greeting[..n] + greeting[n..] == greeting;
    RequestWithGreeting(c, r, greeting[..n], greeting[n..], greeting[n..]);
  }

  // ----- Runs -----

  /** A relay with every read that held anything, from either side, and the IPs of every successful lookup. */
  datatype History = History(r: Relay, near: seq<Bytes>, far: seq<Bytes>, answers: seq<seq<IP>>)

  function Record(c: Config, h: History, e: Event): History {
    History(Step(c, h.r, e),
            if e.LocalRead? && e.data != [] then h.near + [e.data] else h.near,
            if e.RemoteRead? && e.data != [] then h.far + [e.data] else h.far,
            if e.LookupDone? && e.answer.Some? then h.answers + [e.answer.value] else h.answers)
  }

  predicate Allowed(h: History, e: Event) {
    Possible(h.r, e) && !Late(h.r, e)
  }

  function Fresh(iv: Bytes): EncState {
    EncState(iv, None, None, [], 0)
  }

  /** The socket states go with the stage. */
  predicate SocketsOk(r: Relay) {
    && (r.localOpen <==> r.stage != DESTROYED)
    && (r.link == Up <==> r.stage == STREAM)
    && (r.link == Dialing <==> r.stage == CONNECTING)
    && (r.pending != NoLookup ==> r.stage == DNS || r.stage == DESTROYED)
    && (r.stage in {INIT, ADDR, UDP_ASSOC, DNS} ==> r.dialled == [])
    && |r.dialled| <= 1
    && (r.stage == CONNECTING || r.stage == STREAM ==> r.dialled != [])
  }

  /** What has been dialled to reach a: its own first IP, or else the first one its only lookup returned. */
  predicate Reaches(a: Endpoint, answers: seq<seq<IP>>, dialled: seq<(Option<IP>, bv16)>) {
    if dialled == [] then answers == []
    else if a.ips != [] then answers == [] && dialled == [(Some(a.ips[0]), a.port)]
    else |answers| == 1 && dialled == [(if answers[0] == [] then None else Some(answers[0][0]), a.port)]
  }

  /** The queue before the connection, the remote socket after it. */
  predicate Carried(r: Relay, text: Bytes) {
    match r.stage
    case DNS => r.toRemote == [] && r.dataToWrite == text
    case CONNECTING => r.toRemote == [] && r.dataToWrite == text
    case STREAM => r.toRemote == text && r.dataToWrite == []
    case DESTROYED => r.toRemote == [] || r.toRemote == text
    case _ => r.toRemote == [] && r.dataToWrite == []
  }

  predicate Running(r: Relay) {
    r.stage == DNS || r.stage == CONNECTING || r.stage == STREAM
  }

  // ----- Client mode -----

  /** What a client encrypts: the request without its first three bytes, then everything read. */
  function Ups(near: seq<Bytes>): seq<Bytes> {
    if |near| <= 1 then [] else [Drop(near[1], 3)] + near[2..]
  }

  function Greeting(near: seq<Bytes>): Bytes {
    if near == [] || near[0] == [] then [] else if near[0][0] == 5 then ACCEPT else REJECT
  }

  /** The read after the greeting was a connect request whose header is accepted. */
  predicate Requested(c: Config, near: seq<Bytes>) {
    |near| >= 2 && At(near[1], 1) == 1 && ParseHeader(c.q, Drop(near[1], 3), c.junk).Header?
  }

  predicate ClientUp(c: Config, iv: Bytes, h: History) {
    && h.r.enc.nextIV == iv
    && (Running(h.r) || h.r.toRemote != [] ==> Requested(c, h.near))
    && (h.r.stage == INIT ==> h.near == [])
    && (h.r.stage == ADDR ==> |h.near| == 1 && h.near[0] != [])
    && (h.r.stage == UDP_ASSOC ==> |h.near| >= 2)
    && (h.r.stage == INIT || h.r.stage == ADDR ==> h.r.enc.en == None)
    && (Running(h.r) ==> |h.near| >= 2 && h.r.enc.en == EncryptEach(c.p, Fresh(iv), Ups(h.near)).0.en)
    && Carried(h.r, EncryptEach(c.p, Fresh(iv), Ups(h.near)).1)
  }

  predicate ClientDown(c: Config, iv: Bytes, h: History) {
    var r, fixed := h.r, Greeting(h.near);
    && r.enc.de == DecryptEach(c.p, Fresh(iv), h.far).0.de
    && (h.far != [] ==> (r.stage == STREAM || r.stage == DESTROYED) && |h.near| >= 2)
    && (r.stage == INIT || r.stage == ADDR ==> r.toLocal == fixed)
    && (Running(r) || h.far != [] ==> r.toLocal == fixed + RESPONSE + DecryptEach(c.p, Fresh(iv), h.far).1)
    && (r.stage == UDP_ASSOC ==> r.toLocal == fixed + ASSOCIATE + PackIP(c.localIP, c.localPort))
    && (r.stage == DESTROYED && h.far == [] ==>
          r.toLocal in {fixed, fixed + RESPONSE, fixed + ASSOCIATE + PackIP(c.localIP, c.localPort)})
  }

  /** Whom a client dials: its proxy, at the IP it had or the answer of its lookup. */
  predicate ClientTarget(server: Endpoint, r: Relay, answers: seq<seq<IP>>) {
    && r.pending != RemoteLookup
    && r.serverAddress.(ips := []) == server.(ips := [])
    && (server.ips != [] || r.stage == INIT || r.stage == ADDR || r.stage == DNS ==> r.serverAddress == server)
    && (r.stage == DNS ==> server.ips == [])
    && (r.dialled != [] ==> r.dialled == [(FirstIP(r.serverAddress), server.port)])
    && (r.pending != NoLookup ==> server.ips == [])
    && Reaches(server, answers, r.dialled)
  }

  predicate ClientOk(c: Config, server: Endpoint, iv: Bytes, h: History) {
    SocketsOk(h.r) && ClientUp(c, iv, h) && ClientDown(c, iv, h) && ClientTarget(server, h.r, h.answers)
  }

  // ----- Server mode -----

  /** The first non-empty decrypted fragment. */
  function FirstPlain(p: Profile, s: EncState, near: seq<Bytes>): Bytes {
    if near == [] then []
    else
      var f := FirstPlain(p, s, Front(near));
      if f != [] then f else DecryptEach(p, s, near).1
  }

  /** Everything decrypted, without the header as far as the first fragment holds it. */
  function Payload(c: Config, first: Bytes, plain: Bytes): Bytes {
    match ParseHeader(c.q, first, c.junk)
    case NoHeader => []
    case Header(_, n) => Drop(plain, if n <= |first| then n else |first|)
  }

  predicate ServerUp(c: Config, iv: Bytes, h: History) {
    var first, plain := FirstPlain(c.p, Fresh(iv), h.near), DecryptEach(c.p, Fresh(iv), h.near).1;
    && h.r.stage != ADDR && h.r.stage != UDP_ASSOC && h.r.pending != ServerLookup
    && h.r.enc.de == DecryptEach(c.p, Fresh(iv), h.near).0.de
    && (h.r.stage == INIT ==> plain == [])
    && (Running(h.r) ==> first != [])
    && Carried(h.r, Payload(c, first, plain))
  }

  /** Whom the server dials: the address in the header, with that IP or the answer of its lookup. */
  predicate ServerTarget(c: Config, r: Relay, first: Bytes, answers: seq<seq<IP>>) {
    && (r.dialled == [] ==> answers == [])
    && (Running(r) || r.dialled != [] ==>
          && ParseHeader(c.q, first, c.junk).Header?
          && var dest := ParseHeader(c.q, first, c.junk).dest;
             && r.remoteAddress.(ips := []) == dest.(ips := [])
             && (dest.ips != [] ==> r.remoteAddress == dest && r.dialled != [])
             && (r.dialled != [] ==> r.dialled == [(FirstIP(r.remoteAddress), dest.port)])
             && Reaches(dest, answers, r.dialled))
  }

  predicate ServerDown(c: Config, iv: Bytes, h: History) {
    && h.r.enc.nextIV == iv
    && h.r.enc.en == EncryptEach(c.p, Fresh(iv), h.far).0.en
    && h.r.toLocal == EncryptEach(c.p, Fresh(iv), h.far).1
    && (h.far != [] ==> h.r.stage == STREAM || h.r.stage == DESTROYED)
  }

  predicate ServerOk(c: Config, iv: Bytes, h: History) {
    && SocketsOk(h.r) && ServerUp(c, iv, h) && ServerDown(c, iv, h)
    && ServerTarget(c, h.r, FirstPlain(c.p, Fresh(iv), h.near), h.answers)
  }
}
