/** A client-mode relay and a server-mode relay joined by a connection that fragments at will. */
module TunnelEndToEnd {
  import opened ByteStrings
  import opened Streams
  import opened Addresses
  import opened RelaySpec
  import opened RelayInvariants

  /** The two ends share profile and literals; each has drawn its own IV and knows its own addresses. */
  datatype Ends = Ends(client: Config, server: Config, clientIV: Bytes, serverIV: Bytes,
                       proxy: Endpoint, unused: Endpoint)

  ghost predicate ValidEnds(x: Ends) {
    && x.client.isLocal && !x.server.isLocal
    && x.client.p == x.server.p && x.client.q == x.server.q
    && x.client.p.ivLen > 0
    && |x.clientIV| == x.client.p.ivLen == |x.serverIV|
  }

  datatype Tunnel = Tunnel(client: History, server: History)

  datatype Hop = ClientHop(e: Event) | ServerHop(e: Event)

  function StartTunnel(x: Ends): Tunnel {
    Tunnel(History(Start(x.proxy, x.clientIV), [], [], []), History(Start(x.unused, x.serverIV), [], [], []))
  }

  function Apply(x: Ends, t: Tunnel, hop: Hop): Tunnel {
    match hop
    case ClientHop(e) => t.(client := Record(x.client, t.client, e))
    case ServerHop(e) => t.(server := Record(x.server, t.server, e))
  }

  /** What is read from the connection is the next piece, of any size, of what the other end has written. */
  predicate Enabled(t: Tunnel, hop: Hop) {
    match hop
    case ClientHop(e) =>
      Allowed(t.client, e) && (e.RemoteRead? ==> Flatten(t.client.far) + e.data <= t.server.r.toLocal)
    case ServerHop(e) =>
      Allowed(t.server, e) && (e.LocalRead? ==> Flatten(t.server.near) + e.data <= t.client.r.toRemote)
  }

  /** ts is a run: it starts at the beginning and every next tunnel is one enabled hop away. */
  predicate IsRun(x: Ends, hops: seq<Hop>, ts: seq<Tunnel>) {
    && |ts| == |hops| + 1 && ts[0] == StartTunnel(x)
    && forall i :: 0 <= i < |hops| ==> Enabled(ts[i], hops[i]) && ts[i + 1] == Apply(x, ts[i], hops[i])
  }

  predicate TunnelOk(x: Ends, t: Tunnel) {
    && ClientOk(x.client, x.proxy, x.clientIV, t.client)
    && ServerOk(x.server, x.serverIV, t.server)
    && Flatten(t.server.near) <= t.client.r.toRemote
    && Flatten(t.client.far) <= t.server.r.toLocal
  }

  /** No slot takes back what was written. */
  lemma WrittenStays(c: Config, r: Relay, e: Event)
    ensures r.toRemote <= Step(c, r, e).toRemote && r.toLocal <= Step(c, r, e).toLocal
  {
    hide Encrypt, Decrypt, ParseHeader, PackIP, TakeLocal;
    if e.LocalRead? && e.data != [] {
      TakeLocalStays(c, r, e.data);
      var (s, plain) := Decrypt(c.p, r.enc, e.data);
      TakeLocalStays(c, r.(enc := s), plain);
    }
  }

  lemma TakeLocalStays(c: Config, r: Relay, data: Bytes)
    ensures r.toRemote <= TakeLocal(c, r, data).toRemote && r.toLocal <= TakeLocal(c, r, data).toLocal
  {
    hide Encrypt, ParseHeader, PackIP;
  }

  lemma FlattenRecorded(parts: seq<Bytes>, d: Bytes)
    ensures Flatten(if d != [] then parts + [d] else parts) == Flatten(parts) + d
  {
    FlattenAppend(parts, d);
  }

  lemma HopKeepsOk(x: Ends, t: Tunnel, hop: Hop)
    requires ValidEnds(x) && TunnelOk(x, t) && Enabled(t, hop)
    ensures TunnelOk(x, Apply(x, t, hop))
  {
    hide ClientOk, ServerOk, Step, Allowed;
    match hop
    case ClientHop(e) =>
      ClientStep(x.client, x.proxy, x.clientIV, t.client, e);
      WrittenStays(x.client, t.client.r, e);
      if e.RemoteRead? {
        FlattenRecorded(t.client.far, e.data);
      }
    case ServerHop(e) =>
      ServerStep(x.server, x.serverIV, t.server, e);
      WrittenStays(x.server, t.server.r, e);
      if e.LocalRead? {
        FlattenRecorded(t.server.near, e.data);
      }
  }

  lemma {:induction false} EveryRunOk(x: Ends, hops: seq<Hop>, ts: seq<Tunnel>, k: nat)
    requires ValidEnds(x) && IsRun(x, hops, ts) && k < |ts|
    ensures TunnelOk(x, ts[k])
  {
    hide TunnelOk, Apply, Enabled;
    if k == 0 {
      ClientStart(x.client, x.proxy, x.clientIV);
      ServerStart(x.server, x.unused, x.serverIV);
      StartOk(x);
    } else {
      EveryRunOk(x, hops, ts, k - 1);
      assert Enabled(ts[k - 1], hops[k - 1]);
      HopKeepsOk(x, ts[k - 1], hops[k - 1]);
    }
  }

  lemma StartOk(x: Ends)
    requires ValidEnds(x)
    ensures TunnelOk(x, StartTunnel(x))
  {
    ClientStart(x.client, x.proxy, x.clientIV);
    ServerStart(x.server, x.unused, x.serverIV);
  }

  // ----- What the far side makes of a stream that is still arriving -----

  lemma StreamSoFar(p: Profile, iv: Bytes, parts: seq<Bytes>, iv': Bytes, frags: seq<Bytes>)
    requires |iv| == p.ivLen > 0
    requires Flatten(frags) <= EncryptEach(p, Fresh(iv), parts).1
    requires IVInOnePiece(p.ivLen, frags)
    ensures DecryptEach(p, Fresh(iv'), frags).1 <= Flatten(parts)
    ensures Flatten(frags) == EncryptEach(p, Fresh(iv), parts).1 ==>
      DecryptEach(p, Fresh(iv'), frags).1 == Flatten(parts)
  {
    hide EncryptEach, DecryptEach, Skipped;
    if parts != [] {
      StreamRoundTrip(p, Fresh(iv), parts, Fresh(iv'), frags);
    } else {
      EncryptEachWire(p, Fresh(iv), parts);
      var n := Skipped(p.ivLen, frags);
      DecryptEachPlain(p, Fresh(iv'), frags, n);
      FlattenSplit(frags, n);
    }
  }

  /** Everything the application sent after its greeting, as far as the client has read it. */
  function Asked(near: seq<Bytes>): Bytes {
    if |near| <= 1 then [] else Flatten(near[1..])
  }

  /** So far the application has sent a prefix of a request with this header and of payload, in reads of any sizes. */
  predicate Requests(near: seq<Bytes>, pre: Bytes, head: Bytes, payload: Bytes) {
    |pre| == 3 && Asked(near) <= pre + head + payload
  }

  /** What of that concerns the server: all but version, command and reserved byte. */
  function Text(near: seq<Bytes>): Bytes {
    Drop(Asked(near), 3)
  }

  lemma UpsFlat(near: seq<Bytes>)
    requires |near| >= 2 && |near[1]| >= 3
    ensures Flatten(Ups(near)) == Text(near)
  {
    var rest := Flatten(near[2..]);
    FlattenConcat([Drop(near[1], 3)], near[2..]);
    assert Flatten([Drop(near[1], 3)]) == Drop(near[1], 3) + Flatten([]) == Drop(near[1], 3);
    assert near[1..] == [near[1]] + near[2..];
    FlattenConcat([near[1]], near[2..]);
    assert Flatten([near[1]]) == near[1] + Flatten([]) == near[1];
    assert (near[1] + rest)[3..] == near[1][3..] + rest;
  }

  lemma TextIsPrefix(near: seq<Bytes>, pre: Bytes, head: Bytes, payload: Bytes)
    requires Requests(near, pre, head, payload)
    ensures Text(near) <= head + payload
    ensures Text(near) != [] ==> Asked(near) == pre + Text(near)
  {
    hide Asked;
    var whole, n := head + payload, |Asked(near)|;
    assert pre + head + payload == pre + whole;
    assert Asked(near) == (pre + whole)[..n];
    if n >= 3 {
      assert (pre + whole)[..n] == pre + whole[..n - 3];
    }
  }

  /** A client that has written anything has accepted its request, so that held more than three bytes. */
  lemma LongRequest(c: Config, iv: Bytes, h: History)
    requires ClientUp(c, iv, h) && h.r.toRemote != []
    ensures |h.near| >= 2 && |h.near[1]| > 3
  {
    hide ParseHeader, EncryptEach;
    if |h.near[1]| <= 3 {
      assert Drop(h.near[1], 3) == [];
      NothingParsed(c.q, c.junk);
    }
  }

  /** What has left the server for the destination, and what waits for the connection. */
  function Forwarded(r: Relay): Bytes {
    r.toRemote + if r.stage == DNS || r.stage == CONNECTING then r.dataToWrite else []
  }

  /** What the server has decrypted, and the first fragment of it that is not empty. */
  function Plain(x: Ends, near: seq<Bytes>): Bytes {
    DecryptEach(x.server.p, Fresh(x.serverIV), near).1
  }

  function First(x: Ends, near: seq<Bytes>): Bytes {
    FirstPlain(x.server.p, Fresh(x.serverIV), near)
  }

  /** The server's first decrypted fragment is whole: nothing yet, or at least the header. */
  predicate HeaderInOnePiece(x: Ends, near: seq<Bytes>, head: Bytes) {
    First(x, near) == [] || |head| <= |First(x, near)|
  }

  /** Everything the client has written has arrived. */
  predicate AllArrived(t: Tunnel) {
    Flatten(t.server.near) == t.client.r.toRemote != []
  }

  /** The server decrypts what the application sent, as far as it has arrived. */
  lemma PlainSoFar(x: Ends, t: Tunnel)
    requires ValidEnds(x) && TunnelOk(x, t)
    requires IVInOnePiece(x.client.p.ivLen, t.server.near)
    ensures First(x, t.server.near) <= Plain(x, t.server.near) <= Text(t.client.near)
    ensures First(x, t.server.near) == [] ==> Plain(x, t.server.near) == []
    ensures AllArrived(t) ==> Plain(x, t.server.near) == Text(t.client.near) != []
  {
    hide EncryptEach, DecryptEach, FirstPlain, Skipped, IVInOnePiece, ParseHeader, ServerOk, ClientDown, Text;
    var p, near, c := x.server.p, t.server.near, t.client;
    FirstPlainPrefix(p, Fresh(x.serverIV), near);
    if c.r.toRemote == [] {
      NothingYet(p, Fresh(x.clientIV), [], [], []);
      StreamSoFar(p, x.clientIV, [], x.serverIV, near);
    } else {
      LongRequest(x.client, x.clientIV, c);
      UpsFlat(c.near);
      TextNotEmpty(c.near);
      ClientWrote(x, t);
      StreamSoFar(p, x.clientIV, Ups(c.near), x.serverIV, near);
    }
  }

  lemma TextNotEmpty(near: seq<Bytes>)
    requires |near| >= 2 && |near[1]| > 3
    ensures Text(near) != []
  {
  }

  lemma ClientWrote(x: Ends, t: Tunnel)
    requires ValidEnds(x) && TunnelOk(x, t)
    ensures var wire := EncryptEach(x.client.p, Fresh(x.clientIV), Ups(t.client.near)).1;
      && Flatten(t.server.near) <= wire
      && (AllArrived(t) ==> Flatten(t.server.near) == wire)
  {
    hide EncryptEach, DecryptEach, ServerOk, ClientDown, SocketsOk, Requested;
    assert t.client.r.toRemote == []
        || t.client.r.toRemote == EncryptEach(x.client.p, Fresh(x.clientIV), Ups(t.client.near)).1;
  }

  /** The server's stage and what it forwards, by its first decrypted fragment. */
  lemma ServerForwards(c: Config, iv: Bytes, h: History)
    requires ServerOk(c, iv, h)
    ensures var first, plain := FirstPlain(c.p, Fresh(iv), h.near), DecryptEach(c.p, Fresh(iv), h.near).1;
      && (Forwarded(h.r) == [] || (Forwarded(h.r) == Payload(c, first, plain) && first != []))
      && (Running(h.r) ==> Forwarded(h.r) == Payload(c, first, plain) && first != [])
      && (h.r.stage == INIT ==> plain == [])
      && (Running(h.r) || h.r.stage == INIT || h.r.stage == DESTROYED)
      && (Running(h.r) || h.r.dialled != [] ==> ParseHeader(c.q, first, c.junk).Header?)
  {
    hide DecryptEach, EncryptEach, FirstPlain, ParseHeader;
    var first, plain := FirstPlain(c.p, Fresh(iv), h.near), DecryptEach(c.p, Fresh(iv), h.near).1;
    if first == [] {
      FirstPlainPrefix(c.p, Fresh(iv), h.near);
      assert Payload(c, first, plain) == [] by { NothingToForward(c, plain); }
    }
  }

  lemma NothingToForward(c: Config, plain: Bytes)
    requires plain == []
    ensures Payload(c, [], plain) == []
  {
    hide ParseHeader;
  }

  // ----- What the server makes of the header -----

  /** The header whole in the first fragment: it is the client's, and the payload is what follows. */
  lemma WholeHeader(c: Config, head: Bytes, payload: Bytes, first: Bytes, plain: Bytes)
    requires IsHeader(c.q, head) && first <= plain <= head + payload && |head| <= |first|
    ensures ParseHeader(c.q, first, c.junk) == Header(Destination(c.q, head), |head|)
    ensures Payload(c, first, plain) == plain[|head|..] <= payload
    ensures head + Payload(c, first, plain) == plain
  {
    hide ParseHeader;
    assert first == plain[..|first|] == (head + payload)[..|first|];
    assert first == head + first[|head|..];
    HeaderThenParse(c.q, head, first[|head|..], c.junk);
    assert plain == (head + payload)[..|plain|] == head + payload[..|plain| - |head|];
  }

  /** A cut header: nothing of it is understood, or a misread port and the rest of it taken as payload. */
  lemma BrokenHeader(c: Config, head: Bytes, payload: Bytes, first: Bytes, plain: Bytes)
    requires IsHeader(c.q, head) && first <= plain <= head + payload && 0 < |first| < |head|
    ensures CutUnnoticed(head, |first|) ==>
      && ParseHeader(c.q, first, c.junk).Header?
      && ParseHeader(c.q, first, c.junk).dest
         == Destination(c.q, head).(port := MisreadPort(head, |first|, c.junk))
      && Payload(c, first, plain) == plain[|first|..]
    ensures !CutUnnoticed(head, |first|) ==>
      ParseHeader(c.q, first, c.junk) == NoHeader && Payload(c, first, plain) == []
  {
    hide ParseHeader, MisreadPort;
    var n := |first|;
    assert first == plain[..n] == (head + payload)[..n] == head[..n];
    CutHeader(c.q, head, n, c.junk);
  }

  /**
   Up: whatever header the request has and however the application cuts what it sends, in every state of every
   run the server has forwarded a prefix of the payload, to the address in the header, and once everything
   written has arrived exactly what the application sent behind its request; if IV and header reached the
   server in one piece each.
   */
  lemma UpstreamEndToEnd(x: Ends, hops: seq<Hop>, ts: seq<Tunnel>, k: nat, pre: Bytes, head: Bytes, payload: Bytes)
    requires ValidEnds(x) && IsRun(x, hops, ts) && k < |ts|
    requires IsHeader(x.client.q, head) && Requests(ts[k].client.near, pre, head, payload)
    requires IVInOnePiece(x.client.p.ivLen, ts[k].server.near) && HeaderInOnePiece(x, ts[k].server.near, head)
    ensures var r, dest := ts[k].server.r, Destination(x.client.q, head);
      && Forwarded(r) <= payload
      && (r.dialled != [] ==>
            && r.dialled == [(FirstIP(r.remoteAddress), dest.port)] && r.remoteAddress.text == dest.text
            && (dest.ips != [] ==> r.dialled == [(Some(dest.ips[0]), dest.port)]))
      && Reaches(dest, ts[k].server.answers, r.dialled)
      && (AllArrived(ts[k]) && r.stage != DESTROYED ==>
            Running(r) && pre + head + Forwarded(r) == Asked(ts[k].client.near))
  {
    hide *;
    EveryRunOk(x, hops, ts, k);
    UpstreamPayload(x, ts[k], pre, head, payload);
    UpstreamTarget(x, ts[k], pre, head, payload);
  }

  lemma UpstreamPayload(x: Ends, t: Tunnel, pre: Bytes, head: Bytes, payload: Bytes)
    requires ValidEnds(x) && TunnelOk(x, t)
    requires IsHeader(x.client.q, head) && Requests(t.client.near, pre, head, payload)
    requires IVInOnePiece(x.client.p.ivLen, t.server.near) && HeaderInOnePiece(x, t.server.near, head)
    ensures var r := t.server.r;
      && Forwarded(r) <= payload
      && (AllArrived(t) && r.stage != DESTROYED ==>
            Running(r) && pre + head + Forwarded(r) == Asked(t.client.near))
  {
    hide DecryptEach, EncryptEach, FirstPlain, ParseHeader, IsHeader, IVInOnePiece, Requests, AllArrived,
         ServerOk, ClientOk, Payload, Forwarded, Asked, Text;
    PlainSoFar(x, t);
    TextIsPrefix(t.client.near, pre, head, payload);
    ServerForwards(x.server, x.serverIV, t.server);
    var first, plain := First(x, t.server.near), Plain(x, t.server.near);
    if first != [] {
      WholeHeader(x.server, head, payload, first, plain);
      var out := Payload(x.server, first, plain);
      assert pre + head + out == pre + (head + out);
    }
  }

  lemma UpstreamTarget(x: Ends, t: Tunnel, pre: Bytes, head: Bytes, payload: Bytes)
    requires ValidEnds(x) && TunnelOk(x, t)
    requires IsHeader(x.client.q, head) && Requests(t.client.near, pre, head, payload)
    requires IVInOnePiece(x.client.p.ivLen, t.server.near) && HeaderInOnePiece(x, t.server.near, head)
    ensures var r, dest := t.server.r, Destination(x.client.q, head);
      && Reaches(dest, t.server.answers, r.dialled)
      && (r.dialled != [] ==>
            && r.dialled == [(FirstIP(r.remoteAddress), dest.port)] && r.remoteAddress.text == dest.text
            && (dest.ips != [] ==> r.dialled == [(Some(dest.ips[0]), dest.port)]))
  {
    hide DecryptEach, EncryptEach, FirstPlain, ParseHeader, IVInOnePiece, Requests, AllArrived,
         ClientOk, ServerUp, ServerDown, Payload, Asked, Text;
    PlainSoFar(x, t);
    TextIsPrefix(t.client.near, pre, head, payload);
    var first, plain := First(x, t.server.near), Plain(x, t.server.near);
    if t.server.r.dialled != [] {
      if first == [] {
        NothingParsed(x.server.q, x.server.junk);
      } else {
        WholeHeader(x.server, head, payload, first, plain);
      }
    }
  }

  /** In particular for a request that packs an address: that is where the server connects. */
  lemma UpstreamToAddress(x: Ends, hops: seq<Hop>, ts: seq<Tunnel>, k: nat, pre: Bytes, a: Endpoint, payload: Bytes)
    requires ValidEnds(x) && IsRun(x, hops, ts) && k < |ts| && Packable(x.client.q, a)
    requires var head := PackAddress(x.client.q, a);
      && Requests(ts[k].client.near, pre, head, payload)
      && IVInOnePiece(x.client.p.ivLen, ts[k].server.near) && HeaderInOnePiece(x, ts[k].server.near, head)
    ensures var r := ts[k].server.r;
      r.dialled != [] ==>
        && r.dialled == [(FirstIP(r.remoteAddress), a.port)]
        && r.remoteAddress.text == Canonical(x.client.q, a).text
        && (AddressType(x.client.q, a) != HOST ==> r.dialled == [(Some(a.ips[0]), a.port)])
        && (AddressType(x.client.q, a) == HOST ==> Reaches(a.(ips := []), ts[k].server.answers, r.dialled))
  {
    hide IsRun, ValidEnds, PackAddress, Requests, IVInOnePiece, HeaderInOnePiece, AllArrived, Forwarded, Asked,
         IsHeader, Destination;
    PackedIsHeader(x.client.q, a);
    UpstreamEndToEnd(x, hops, ts, k, pre, PackAddress(x.client.q, a), payload);
  }

  /** A running relay has forwarded or queued all of text, a closed one all of it or nothing. */
  predicate Sends(r: Relay, text: Bytes) {
    (Running(r) && Forwarded(r) == text) || (r.stage == DESTROYED && (Forwarded(r) == [] || Forwarded(r) == text))
  }

  predicate Outcome(x: Ends, t: Tunnel, head: Bytes) {
    var r, first, plain := t.server.r, First(x, t.server.near), Plain(x, t.server.near);
    if first == [] then r.stage in {INIT, DESTROYED} && Forwarded(r) == [] && r.dialled == []
    else if |head| <= |first| then |head| <= |plain| && Sends(r, plain[|head|..])
    else if CutUnnoticed(head, |first|) then
      && |first| <= |plain| && Sends(r, plain[|first|..])
      && (r.dialled != [] ==>
            r.dialled == [(FirstIP(r.remoteAddress), MisreadPort(head, |first|, x.server.junk))])
    else r.stage == DESTROYED && Forwarded(r) == [] && r.dialled == []
  }

  /**
   The server's fate by the first fragment it decrypts, if the IV reached it in one piece. It forwards what
   follows the header, if that came whole; it closes before dialling, if the cut is noticed; otherwise it
   dials a misread port and forwards the rest of the header with the payload.
   */
  lemma UpstreamOutcome(x: Ends, hops: seq<Hop>, ts: seq<Tunnel>, k: nat, pre: Bytes, head: Bytes, payload: Bytes)
    requires ValidEnds(x) && IsRun(x, hops, ts) && k < |ts|
    requires IsHeader(x.client.q, head) && Requests(ts[k].client.near, pre, head, payload)
    requires IVInOnePiece(x.client.p.ivLen, ts[k].server.near)
    ensures Outcome(x, ts[k], head)
  {
    hide *;
    EveryRunOk(x, hops, ts, k);
    ServerOutcome(x, ts[k], pre, head, payload);
  }

  lemma ServerOutcome(x: Ends, t: Tunnel, pre: Bytes, head: Bytes, payload: Bytes)
    requires ValidEnds(x) && TunnelOk(x, t)
    requires IsHeader(x.client.q, head) && Requests(t.client.near, pre, head, payload)
    requires IVInOnePiece(x.client.p.ivLen, t.server.near)
    ensures Outcome(x, t, head)
  {
    hide DecryptEach, EncryptEach, FirstPlain, ParseHeader, IVInOnePiece, Requests, AllArrived,
         ClientOk, ServerOk, Payload, Asked, Text, Forwarded, MisreadPort, CutUnnoticed;
    PlainSoFar(x, t);
    TextIsPrefix(t.client.near, pre, head, payload);
    ServerForwards(x.server, x.serverIV, t.server);
    NothingParsed(x.server.q, x.server.junk);
    var first, plain := First(x, t.server.near), Plain(x, t.server.near);
    if |head| <= |first| {
      WholeHeader(x.server, head, payload, first, plain);
    } else if first != [] {
      BrokenHeader(x.server, head, payload, first, plain);
      DialledPort(x.server, x.serverIV, t.server);
    }
  }

  lemma DialledPort(c: Config, iv: Bytes, h: History)
    requires ServerOk(c, iv, h)
    ensures var dest := ParseHeader(c.q, FirstPlain(c.p, Fresh(iv), h.near), c.junk);
      h.r.dialled != [] ==> dest.Header? && h.r.dialled == [(FirstIP(h.r.remoteAddress), dest.dest.port)]
  {
    hide ServerUp, ServerDown, ParseHeader, FirstPlain;
  }

  /**
   With everything arrived, a server that has not closed forwards exactly what the application sent behind the
   header if and only if the header came whole, or nothing yet came behind the first fragment.
   */
  lemma UpstreamExactly(x: Ends, hops: seq<Hop>, ts: seq<Tunnel>, k: nat, pre: Bytes, head: Bytes, payload: Bytes)
    requires ValidEnds(x) && IsRun(x, hops, ts) && k < |ts|
    requires IsHeader(x.client.q, head) && Requests(ts[k].client.near, pre, head, payload)
    requires IVInOnePiece(x.client.p.ivLen, ts[k].server.near)
    requires AllArrived(ts[k]) && ts[k].server.r.stage != DESTROYED
    ensures var text, first := Text(ts[k].client.near), First(x, ts[k].server.near);
      Forwarded(ts[k].server.r) == Drop(text, |head|)
      <==> HeaderInOnePiece(x, ts[k].server.near, head) || first == text
  {
    hide IsRun, TunnelOk, IVInOnePiece, Forwarded, Text, Requests, EncryptEach, DecryptEach,
         FirstPlain, AllArrived, CutUnnoticed, MisreadPort, IsHeader;
    EveryRunOk(x, hops, ts, k);
    PlainSoFar(x, ts[k]);
    ServerOutcome(x, ts[k], pre, head, payload);
  }

  /**
   Down: once the client has answered the request, what it writes to the application is the two fixed
   replies and a prefix of what the destination sent; all of it once everything written has arrived.
   */
  lemma DownstreamEndToEnd(x: Ends, hops: seq<Hop>, ts: seq<Tunnel>, k: nat)
    requires ValidEnds(x) && IsRun(x, hops, ts) && k < |ts|
    requires IVInOnePiece(x.client.p.ivLen, ts[k].client.far)
    requires Running(ts[k].client.r) || ts[k].client.far != []
    ensures var c, s := ts[k].client, ts[k].server;
      var fixed := Greeting(c.near) + RESPONSE;
      && fixed <= c.r.toLocal <= fixed + Flatten(s.far)
      && (Flatten(c.far) == s.r.toLocal ==> c.r.toLocal == fixed + Flatten(s.far))
  {
    hide DecryptEach, EncryptEach, FirstPlain, ParseHeader, IVInOnePiece,
         ClientUp, SocketsOk, ServerUp, ServerTarget;
    EveryRunOk(x, hops, ts, k);
    StreamSoFar(x.client.p, x.serverIV, ts[k].server.far, x.clientIV, ts[k].client.far);
  }

  // ----- A complete exchange -----

  lemma Grow(x: Ends, hops: seq<Hop>, ts: seq<Tunnel>, hop: Hop) returns (hops': seq<Hop>, ts': seq<Tunnel>)
    requires IsRun(x, hops, ts) && Enabled(Last(ts), hop)
    ensures IsRun(x, hops', ts') && Last(ts') == Apply(x, Last(ts), hop)
  {
    hide Enabled, Apply, StartTunnel;
    hops', ts' := hops + [hop], ts + [Apply(x, Last(ts), hop)];
    forall i | 0 <= i < |hops'|
      ensures Enabled(ts'[i], hops'[i]) && ts'[i + 1] == Apply(x, ts'[i], hops'[i])
    {
      if i < |hops| {
        assert ts'[i] == ts[i] && ts'[i + 1] == ts[i + 1];
      }
    }
  }

  /** A relay whose request has been taken: it dials, or its lookup is outstanding. */
  predicate Dials(r: Relay) {
    (r.stage == CONNECTING && r.link == Dialing) || (r.stage == DNS && r.pending != NoLookup)
  }

  lemma TakenDials(c: Config, r: Relay, data: Bytes)
    requires ParseHeader(c.q, data, c.junk).Header?
    ensures Dials(TakeHeader(c, r, data))
  {
    hide ParseHeader, Encrypt;
  }

  lemma RequestDials(c: Config, r: Relay, data: Bytes)
    requires data != []
    requires if c.isLocal then r.stage == ADDR && At(data, 1) == 1 && ParseHeader(c.q, Drop(data, 3), c.junk).Header?
             else r.stage == INIT && ParseHeader(c.q, Decrypt(c.p, r.enc, data).1, c.junk).Header?
    ensures Dials(Step(c, r, LocalRead(data)))
  {
    hide ParseHeader, TakeHeader, Decrypt;
    var (s, plain) := Decrypt(c.p, r.enc, data);
    if c.isLocal {
      TakenDials(c, r, Drop(data, 3));
    } else {
      TakenDials(c, r.(enc := s), plain);
      if plain == [] {
        NothingParsed(c.q, c.junk);
      }
    }
  }

  /** What is left to do until it is connected. */
  function Connecting(r: Relay, ips: seq<IP>): seq<Event> {
    if r.stage == DNS then [LookupDone(Some(ips)), Connected] else [Connected]
  }

  lemma ConnectingConnects(c: Config, h: History, ips: seq<IP>)
    requires Dials(h.r)
    ensures var es := Connecting(h.r, ips);
      var g := if h.r.stage == DNS then Record(c, h, es[0]) else h;
      && (h.r.stage == DNS ==> Allowed(h, es[0]))
      && Allowed(g, Connected) && Record(c, g, Connected).r.stage == STREAM
      && Record(c, g, Connected).near == h.near && Record(c, g, Connected).far == h.far
      && Record(c, g, Connected).answers == if h.r.stage == DNS then h.answers + [ips] else h.answers
  {
  }

  lemma ClientConnects(x: Ends, greeting: Bytes, request: Bytes, ips: seq<IP>)
    returns (hops: seq<Hop>, ts: seq<Tunnel>)
    requires ValidEnds(x) && greeting != [] && Requested(x.client, [greeting, request])
    ensures IsRun(x, hops, ts) && Last(ts).client.r.stage == STREAM
    ensures Last(ts).client.near == [greeting, request] && Last(ts).client.far == []
    ensures Last(ts).server == StartTunnel(x).server
    ensures Last(ts).client.answers == [] || Last(ts).client.answers == [ips]
  {
    hide ParseHeader, Encrypt, Decrypt, PackIP;
    hops, ts := [], [StartTunnel(x)];
    hops, ts := Grow(x, hops, ts, ClientHop(LocalRead(greeting)));
    assert Last(ts).client.r.stage == ADDR && Last(ts).client.near == [greeting];
    if request == [] {
      NothingParsed(x.client.q, x.client.junk);
    }
    RequestDials(x.client, Last(ts).client.r, request);
    hops, ts := Grow(x, hops, ts, ClientHop(LocalRead(request)));
    assert Last(ts).client.near == [greeting, request];
    ConnectingConnects(x.client, Last(ts).client, ips);
    if Last(ts).client.r.stage == DNS {
      hops, ts := Grow(x, hops, ts, ClientHop(LookupDone(Some(ips))));
    }
    hops, ts := Grow(x, hops, ts, ClientHop(Connected));
  }

  /** A connected client has written the IV at least. */
  lemma ClientHasWritten(x: Ends, t: Tunnel)
    requires ValidEnds(x) && TunnelOk(x, t) && t.client.r.stage == STREAM
    ensures |t.client.r.toRemote| >= x.client.p.ivLen
  {
    hide EncryptEach, DecryptEach, ServerOk, ClientDown, SocketsOk, ParseHeader, Mask;
    EncryptEachWire(x.client.p, Fresh(x.clientIV), Ups(t.client.near));
  }

  lemma InOnePiece(ivLen: nat, wire: Bytes)
    requires |wire| >= ivLen
    ensures IVInOnePiece(ivLen, [wire]) && Flatten([wire]) == wire
  {
    assert Flatten([wire]) == wire + Flatten([]) == wire;
  }

  lemma OnePlain(p: Profile, iv: Bytes, wire: Bytes)
    ensures DecryptEach(p, Fresh(iv), [wire]).1 == Decrypt(p, Fresh(iv), wire).1 == FirstPlain(p, Fresh(iv), [wire])
  {
    hide Decrypt;
    assert Front([wire]) == [];
    assert [] + Decrypt(p, Fresh(iv), wire).1 == Decrypt(p, Fresh(iv), wire).1;
  }

  lemma OneRequest(greeting: Bytes, pre: Bytes, head: Bytes, payload: Bytes)
    requires |pre| == 3
    ensures var near := [greeting, pre + head + payload];
      Asked(near) == pre + head + payload && Text(near) == head + payload
  {
    var request := pre + head + payload;
    assert [greeting, request][1..] == [request];
    assert Flatten([request]) == request + Flatten([]) == request;
  }

  /** The server reads in one piece what a connected client has written. */
  lemma RequestArrives(x: Ends, t: Tunnel, greeting: Bytes, pre: Bytes, head: Bytes, payload: Bytes)
    requires ValidEnds(x) && TunnelOk(x, t) && t.client.r.stage == STREAM && t.server == StartTunnel(x).server
    requires |pre| == 3 && IsHeader(x.client.q, head) && t.client.near == [greeting, pre + head + payload]
    ensures var wire := t.client.r.toRemote;
      var hop := ServerHop(LocalRead(wire));
      && wire != [] && Enabled(t, hop)
      && IVInOnePiece(x.client.p.ivLen, [wire]) && Flatten([wire]) == wire
      && First(x, [wire]) == head + payload
      && Dials(Apply(x, t, hop).server.r)
  {
    hide DecryptEach, EncryptEach, Decrypt, FirstPlain, ParseHeader, IVInOnePiece, TunnelOk, Asked, Text;
    var wire := t.client.r.toRemote;
    ClientHasWritten(x, t);
    InOnePiece(x.client.p.ivLen, wire);
    var hop := ServerHop(LocalRead(wire));
    assert Flatten([]) + wire == wire;
    HopKeepsOk(x, t, hop);
    var u := Apply(x, t, hop);
    assert u.server.near == [wire] && u.client == t.client;
    PlainSoFar(x, u);
    OnePlain(x.server.p, x.serverIV, wire);
    OneRequest(greeting, pre, head, payload);
    HeaderThenParse(x.server.q, head, payload, x.server.junk);
    RequestDials(x.server, t.server.r, wire);
  }

  lemma ServerConnects(x: Ends, hops: seq<Hop>, ts: seq<Tunnel>, ips: seq<IP>)
    returns (hops': seq<Hop>, ts': seq<Tunnel>)
    requires ValidEnds(x) && IsRun(x, hops, ts) && Dials(Last(ts).server.r)
    ensures IsRun(x, hops', ts') && Last(ts').client == Last(ts).client && Last(ts').server.r.stage == STREAM
    ensures Last(ts').server.near == Last(ts).server.near && Last(ts').server.far == Last(ts).server.far
    ensures Last(ts').server.answers == Last(ts).server.answers
         || Last(ts').server.answers == Last(ts).server.answers + [ips]
  {
    hide Step, StartTunnel, Dials;
    hops', ts' := hops, ts;
    ConnectingConnects(x.server, Last(ts).server, ips);
    if Last(ts).server.r.stage == DNS {
      hops', ts' := Grow(x, hops', ts', ServerHop(LookupDone(Some(ips))));
    }
    hops', ts' := Grow(x, hops', ts', ServerHop(Connected));
  }

  predicate Uploaded(x: Ends, t: Tunnel, greeting: Bytes, pre: Bytes, head: Bytes, payload: Bytes) {
    && t.client.near == [greeting, pre + head + payload]
    && Requests(t.client.near, pre, head, payload)
    && IVInOnePiece(x.client.p.ivLen, t.server.near) && HeaderInOnePiece(x, t.server.near, head)
    && AllArrived(t) && t.client.r.stage == t.server.r.stage == STREAM
    && t.server.r.toRemote == payload
  }

  lemma Upload(x: Ends, greeting: Bytes, pre: Bytes, head: Bytes, payload: Bytes, proxyIPs: seq<IP>, destIPs: seq<IP>)
    returns (hops: seq<Hop>, ts: seq<Tunnel>)
    requires ValidEnds(x) && greeting != [] && |pre| == 3 && pre[1] == 1 && IsHeader(x.client.q, head)
    ensures IsRun(x, hops, ts) && Uploaded(x, Last(ts), greeting, pre, head, payload)
    ensures Last(ts).client.far == Last(ts).server.far == []
    ensures Last(ts).client.answers == [] || Last(ts).client.answers == [proxyIPs]
    ensures Last(ts).server.answers == [] || Last(ts).server.answers == [destIPs]
  {
    hide TunnelOk, Enabled, Step, FirstPlain, ParseHeader, IVInOnePiece, IsHeader, Dials, Asked;
    RequestAccepted(x.client, greeting, pre, head, payload);
    hops, ts := ClientConnects(x, greeting, pre + head + payload, proxyIPs);
    EveryRunOk(x, hops, ts, |hops|);
    var t := Last(ts);
    RequestArrives(x, t, greeting, pre, head, payload);
    var wire := t.client.r.toRemote;
    hops, ts := Grow(x, hops, ts, ServerHop(LocalRead(wire)));
    assert Last(ts).client == t.client && Last(ts).server.near == [wire] && Last(ts).server.far == [];
    assert Last(ts).server.answers == [];
    hops, ts := ServerConnects(x, hops, ts, destIPs);
    OneRequest(greeting, pre, head, payload);
    UpstreamEndToEnd(x, hops, ts, |hops|, pre, head, payload);
    var out := Last(ts).server.r.toRemote;
    assert Forwarded(Last(ts).server.r) == out + [] == out;
    assert (pre + head + out)[|pre + head|..] == (pre + head + payload)[|pre + head|..];
  }

  lemma RequestAccepted(c: Config, greeting: Bytes, pre: Bytes, head: Bytes, payload: Bytes)
    requires |pre| == 3 && pre[1] == 1 && IsHeader(c.q, head)
    ensures Requested(c, [greeting, pre + head + payload])
  {
    hide ParseHeader;
    HeaderThenParse(c.q, head, payload, c.junk);
    assert pre + head + payload == pre + (head + payload);
    assert Drop(pre + head + payload, 3) == head + payload;
  }

  lemma Download(x: Ends, hops: seq<Hop>, ts: seq<Tunnel>, reply: Bytes)
    returns (hops': seq<Hop>, ts': seq<Tunnel>)
    requires ValidEnds(x) && IsRun(x, hops, ts) && reply != []
    requires Last(ts).client.r.stage == Last(ts).server.r.stage == STREAM
    requires Last(ts).client.far == Last(ts).server.far == []
    ensures IsRun(x, hops', ts')
    ensures var t, u := Last(ts), Last(ts');
      && u.client.near == t.client.near && u.server.near == t.server.near
      && u.client.answers == t.client.answers && u.server.answers == t.server.answers
      && u.client.r.stage == u.server.r.stage == STREAM
      && u.client.r.toRemote == t.client.r.toRemote && u.server.r.toRemote == t.server.r.toRemote
      && IVInOnePiece(x.client.p.ivLen, u.client.far)
      && Flatten(u.client.far) == u.server.r.toLocal && u.server.far == [reply]
      && u.client.r.toLocal == Greeting(t.client.near) + RESPONSE + reply
  {
    hide IVInOnePiece, StartTunnel, EncryptEach, DecryptEach, Decrypt, Mask, PackIP, ClientTarget, ClientUp, ServerUp, ServerTarget,
         ParseHeader;
    EveryRunOk(x, hops, ts, |hops|);
    hops', ts' := Grow(x, hops, ts, ServerHop(RemoteRead(reply)));
    EveryRunOk(x, hops', ts', |hops'|);
    var wire := Last(ts').server.r.toLocal;
    assert Last(ts').server.far == [reply];
    EncryptEachWire(x.server.p, Fresh(x.serverIV), [reply]);
    InOnePiece(x.client.p.ivLen, wire);
    InOnePiece(0, reply);
    assert Flatten([]) + wire == wire;
    hops', ts' := Grow(x, hops', ts', ClientHop(RemoteRead(wire)));
    assert Last(ts').client.far == [wire];
    DownstreamEndToEnd(x, hops', ts', |hops'|);
  }

  /**
   Complete exchanges exist: for any greeting, connect request, payload and reply, whether the two addresses
   come as IPs or have to be looked up, some run delivers all of the payload to the destination and all of
   the reply to the application.
   */
  lemma CompleteExchange(x: Ends, greeting: Bytes, pre: Bytes, head: Bytes, payload: Bytes, reply: Bytes,
                         proxyIPs: seq<IP>, destIPs: seq<IP>)
    returns (hops: seq<Hop>, ts: seq<Tunnel>)
    requires ValidEnds(x) && greeting != [] && reply != []
    requires |pre| == 3 && pre[1] == 1 && IsHeader(x.client.q, head)
    ensures IsRun(x, hops, ts) && Uploaded(x, Last(ts), greeting, pre, head, payload)
    ensures var t := Last(ts);
      && IVInOnePiece(x.client.p.ivLen, t.client.far)
      && Flatten(t.client.far) == t.server.r.toLocal && t.server.far == [reply]
      && t.client.r.toLocal == Greeting([greeting]) + RESPONSE + reply
      && t.client.r.dialled == [Place(x.proxy, proxyIPs)]
      && t.server.r.dialled == [Place(Destination(x.client.q, head), destIPs)]
  {
    hide Step, FirstPlain, IVInOnePiece, IsHeader, Requests, Enabled, TunnelOk, Place;
    hops, ts := Upload(x, greeting, pre, head, payload, proxyIPs, destIPs);
    hops, ts := Download(x, hops, ts, reply);
    var t := Last(ts);
    EveryRunOk(x, hops, ts, |hops|);
    UpstreamEndToEnd(x, hops, ts, |hops|, pre, head, payload);
    ConnectedDialled(x, t);
    ReachedAt(x.proxy, proxyIPs, t.client.answers, t.client.r.dialled);
    ReachedAt(Destination(x.client.q, head), destIPs, t.server.answers, t.server.r.dialled);
  }

  /** Where a relay connects for a, if a lookup returns ips. */
  function Place(a: Endpoint, ips: seq<IP>): (Option<IP>, bv16) {
    (if a.ips != [] then Some(a.ips[0]) else if ips == [] then None else Some(ips[0]), a.port)
  }

  lemma ReachedAt(a: Endpoint, ips: seq<IP>, answers: seq<seq<IP>>, dialled: seq<(Option<IP>, bv16)>)
    requires Reaches(a, answers, dialled) && dialled != [] && (answers == [] || answers == [ips])
    ensures dialled == [Place(a, ips)]
  {
  }

  lemma ConnectedDialled(x: Ends, t: Tunnel)
    requires TunnelOk(x, t) && t.client.r.stage == t.server.r.stage == STREAM
    ensures Reaches(x.proxy, t.client.answers, t.client.r.dialled)
    ensures t.client.r.dialled != [] && t.server.r.dialled != []
  {
    hide ClientUp, ClientDown, ServerUp, ServerDown, ServerTarget, Reaches, FirstPlain;
  }
}
