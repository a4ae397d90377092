/**
 What an Encryptor computes, as functions on its state, against an abstract keystream cipher:
 streams with an IV prefix, self-contained datagrams, and header authentication.
 */
module Streams {
  import opened Bits
  import opened ByteStrings

  const AUTH_LEN := 10

  type Tag = t: Bytes | |t| == AUTH_LEN witness seq(AUTH_LEN, _ => 0)

  /** Key material and primitives: keystream(iv, n) is byte n of the keystream under key and iv. */
  datatype Profile = Profile(key: Bytes, ivLen: nat,
                             keystream: (Bytes, nat) -> Byte,
                             hmac: (Bytes, Bytes) -> Tag)

  /** A running cipher: its IV and how many keystream bytes it has used. */
  datatype Stream = Stream(iv: Bytes, used: nat)

  datatype EncState = EncState(
    nextIV: Bytes,          // the IV the next fresh encrypting cipher takes
    en: Option<Stream>,
    de: Option<Stream>,
    incomplete: Bytes,      // bytes of an unfinished chunk
    chunkId: nat)

  function Mask(p: Profile, c: Stream, data: Bytes): (r: Bytes)
    ensures |r| == |data|
  {
    seq(|data|, i requires 0 <= i < |data| => data[i] ^ p.keystream(c.iv, c.used + i))
  }

  function Advance(c: Stream, n: nat): Stream {
    Stream(c.iv, c.used + n)
  }

  lemma MaskSplit(p: Profile, c: Stream, a: Bytes, b: Bytes)
    ensures Mask(p, c, a + b) == Mask(p, c, a) + Mask(p, Advance(c, |a|), b)
  {
    var l, r := Mask(p, c, a + b), Mask(p, c, a) + Mask(p, Advance(c, |a|), b);
    forall i | 0 <= i < |l|
      ensures l[i] == r[i]
    {
      if |a| <= i {
        assert c.used + i == c.used + |a| + (i - |a|);
      }
    }
  }

  lemma MaskTwice(p: Profile, c: Stream, data: Bytes)
    ensures Mask(p, c, Mask(p, c, data)) == data
  {
    var l := Mask(p, c, Mask(p, c, data));
    forall i | 0 <= i < |data|
      ensures l[i] == data[i]
    {
      XorTwice(data[i], p.keystream(c.iv, c.used + i));
    }
  }

  lemma MaskPrefix(p: Profile, c: Stream, data: Bytes, n: nat)
    requires n <= |data|
    ensures Mask(p, c, data)[..n] == Mask(p, c, data[..n])
  {
    assert data == data[..n] + data[n..];
    MaskSplit(p, c, data[..n], data[n..]);
  }

  // ----- The operations -----

  function Encrypt(p: Profile, s: EncState, data: Bytes): (EncState, Bytes) {
    match s.en
    case None =>
      var c := Stream(s.nextIV, 0);
      (s.(en := Some(Advance(c, |data|))), s.nextIV + Mask(p, c, data))
    case Some(c) =>
      (s.(en := Some(Advance(c, |data|))), Mask(p, c, data))
  }

  function Decrypt(p: Profile, s: EncState, data: Bytes): (EncState, Bytes) {
    match s.de
    case None =>
      if |data| < p.ivLen then (s, [])
      else
        var c := Stream(data[..p.ivLen], 0);
        (s.(de := Some(Advance(c, |data| - p.ivLen))), Mask(p, c, data[p.ivLen..]))
    case Some(c) =>
      (s.(de := Some(Advance(c, |data|))), Mask(p, c, data))
  }

  /** A datagram: always a fresh cipher, whose IV is replaced by a new draw. */
  function EncryptAll(p: Profile, s: EncState, data: Bytes, draw: Bytes): (EncState, Bytes) {
    var c := Stream(s.nextIV, 0);
    (s.(en := Some(Advance(c, |data|)), nextIV := draw), s.nextIV + Mask(p, c, data))
  }

  /** On a datagram too short for an IV the old cipher is already scheduled for deletion but kept. */
  function DecryptAll(p: Profile, s: EncState, data: Bytes): (EncState, Bytes) {
    if |data| < p.ivLen then (s, [])
    else
      var c := Stream(data[..p.ivLen], 0);
      (s.(de := Some(Advance(c, |data| - p.ivLen))), Mask(p, c, data[p.ivLen..]))
  }

  /** Back to no ciphers; the unfinished chunk stays. */
  function Reset(s: EncState, draw: Bytes): EncState {
    EncState(if s.en.Some? then draw else s.nextIV, None, None, s.incomplete, 0)
  }

  // ----- Streams -----

  function Last<T>(s: seq<T>): T
    requires s != []
  {
    s[|s| - 1]
  }

  function Front<T>(s: seq<T>): seq<T>
    requires s != []
  {
    s[..|s| - 1]
  }

  /** Successive encrypt calls: the final state and everything they return. */
  function EncryptEach(p: Profile, s: EncState, parts: seq<Bytes>): (EncState, Bytes) {
    if parts == [] then (s, [])
    else
      var (t, w) := EncryptEach(p, s, Front(parts));
      var (u, o) := Encrypt(p, t, Last(parts));
      (u, w + o)
  }

  function DecryptEach(p: Profile, s: EncState, parts: seq<Bytes>): (EncState, Bytes) {
    if parts == [] then (s, [])
    else
      var (t, w) := DecryptEach(p, s, Front(parts));
      var (u, o) := Decrypt(p, t, Last(parts));
      (u, w + o)
  }

  /** Where the next encrypted byte comes from, and the IV prefix a first call adds. */
  function Source(s: EncState): Stream {
    if s.en.Some? then s.en.value else Stream(s.nextIV, 0)
  }

  function Prefix(s: EncState): Bytes {
    if s.en.Some? then [] else s.nextIV
  }

  lemma FlattenFront(parts: seq<Bytes>)
    requires parts != []
    ensures Flatten(parts) == Flatten(Front(parts)) + Last(parts)
  {
    assert parts == Front(parts) + [Last(parts)];
    FlattenAppend(Front(parts), Last(parts));
  }

  /** However the plaintext is cut, the wire is one IV and one masked string. */
  lemma {:induction false} EncryptEachWire(p: Profile, s: EncState, parts: seq<Bytes>)
    ensures var f, r := Flatten(parts), EncryptEach(p, s, parts);
      if parts == [] then r == (s, [])
      else r == (s.(en := Some(Advance(Source(s), |f|))), Prefix(s) + Mask(p, Source(s), f))
  {
    if parts != [] {
      hide Mask;
      var front, last := Front(parts), Last(parts);
      EncryptEachWire(p, s, front);
      FlattenFront(parts);
      MaskSplit(p, Source(s), Flatten(front), last);
      if front == [] {
        assert Flatten(parts) == last;
        assert [] + Encrypt(p, s, last).1 == Encrypt(p, s, last).1;
      } else {
        var c, f := Source(s), Flatten(front);
        assert Prefix(s) + Mask(p, c, f) + Mask(p, Advance(c, |f|), last)
            == Prefix(s) + (Mask(p, c, f) + Mask(p, Advance(c, |f|), last));
      }
    }
  }

  /** How many leading fragments a receiver without a cipher throws away. */
  function Skipped(ivLen: nat, frags: seq<Bytes>): (n: nat)
    ensures n <= |frags|
    ensures n < |frags| ==> |frags[n]| >= ivLen
    ensures forall i :: 0 <= i < n ==> |frags[i]| < ivLen
  {
    if frags == [] || |frags[0]| >= ivLen then 0
    else 1 + Skipped(ivLen, frags[1..])
  }

  function Received(p: Profile, s: EncState, heard: Bytes): (EncState, Bytes)
    requires p.ivLen <= |heard|
  {
    var c := Stream(heard[..p.ivLen], 0);
    (s.(de := Some(Advance(c, |heard| - p.ivLen))), Mask(p, c, heard[p.ivLen..]))
  }

  /** A receiver's total output depends on the fragmentation only through the skipped fragments. */
  lemma {:induction false} DecryptEachPlain(p: Profile, s: EncState, frags: seq<Bytes>, n: nat)
    requires s.de.None?
    requires n <= |frags|
    requires forall i :: 0 <= i < n ==> |frags[i]| < p.ivLen
    requires n < |frags| ==> |frags[n]| >= p.ivLen
    ensures if n == |frags| then DecryptEach(p, s, frags) == (s, [])
            else |Flatten(frags[n..])| >= p.ivLen
                 && DecryptEach(p, s, frags) == Received(p, s, Flatten(frags[n..]))
  {
    if frags != [] {
      hide Mask;
      var front, last := Front(frags), Last(frags);
      if n == |frags| {
        DecryptEachPlain(p, s, front, n - 1);
        assert Last(frags) == frags[n - 1];
        assert [] + Decrypt(p, s, last).1 == [];
      } else if n == |front| {
        DecryptEachPlain(p, s, front, n);
        assert frags[n..] == [last];
        assert Flatten([last]) == last + Flatten([]) == last;
        assert [] + Decrypt(p, s, last).1 == Decrypt(p, s, last).1;
      } else {
        DecryptEachPlain(p, s, front, n);
        FlattenFront(frags[n..]);
        assert Front(frags[n..]) == front[n..];
        ReceivedMore(p, s, Flatten(front[n..]), last);
      }
    }
  }

  lemma ReceivedMore(p: Profile, s: EncState, heard: Bytes, more: Bytes)
    requires p.ivLen <= |heard|
    ensures var (t, x) := Received(p, s, heard);
            var (u, y) := Decrypt(p, t, more);
            Received(p, s, heard + more) == (u, x + y)
  {
    var c := Stream(heard[..p.ivLen], 0);
    MaskSplit(p, c, heard[p.ivLen..], more);
    assert (heard + more)[..p.ivLen] == heard[..p.ivLen];
    assert (heard + more)[p.ivLen..] == heard[p.ivLen..] + more;
  }

  /** The first fragment that holds anything holds the whole IV. */
  predicate IVInOnePiece(ivLen: nat, frags: seq<Bytes>) {
    Flatten(frags[..Skipped(ivLen, frags)]) == []
  }

  lemma {:induction false} FlattenConcat(a: seq<Bytes>, b: seq<Bytes>)
    ensures Flatten(a + b) == Flatten(a) + Flatten(b)
  {
    if a == [] {
      assert a + b == b;
    } else {
      var ab := a + b;
      assert ab[0] == a[0] && ab[1..] == a[1..] + b;
      FlattenConcat(a[1..], b);
      assert a[0] + Flatten(a[1..]) + Flatten(b) == a[0] + (Flatten(a[1..]) + Flatten(b));
    }
  }

  /**
   Stream round trip: whatever prefix of the wire has arrived, in whatever fragments, the receiver has
   produced exactly the corresponding prefix of the plaintext.
   */
  lemma StreamRoundTrip(p: Profile, sender: EncState, parts: seq<Bytes>, receiver: EncState, frags: seq<Bytes>)
    requires sender.en.None? && |sender.nextIV| == p.ivLen && parts != []
    requires receiver.de.None?
    requires Flatten(frags) <= EncryptEach(p, sender, parts).1
    requires IVInOnePiece(p.ivLen, frags)
    ensures |EncryptEach(p, sender, parts).1| == p.ivLen + |Flatten(parts)|
    ensures var arrived := |Flatten(frags)|;
      DecryptEach(p, receiver, frags).1
      == if arrived < p.ivLen then [] else Flatten(parts)[..arrived - p.ivLen]
  {
    hide EncryptEach, DecryptEach, Mask, Received, Skipped;
    var n := Skipped(p.ivLen, frags);
    EncryptEachWire(p, sender, parts);
    DecryptEachPlain(p, receiver, frags, n);
    FlattenSplit(frags, n);
    assert Flatten(frags) == Flatten(frags[n..]);
    if n == |frags| {
      assert Flatten(frags[n..]) == [];
    } else {
      ReceivedPrefix(p, receiver, sender.nextIV, Flatten(parts), Flatten(frags));
    }
  }

  lemma FlattenSplit(frags: seq<Bytes>, n: nat)
    requires n <= |frags|
    ensures Flatten(frags) == Flatten(frags[..n]) + Flatten(frags[n..])
  {
    assert frags == frags[..n] + frags[n..];
    FlattenConcat(frags[..n], frags[n..]);
  }

  lemma ReceivedPrefix(p: Profile, s: EncState, iv: Bytes, text: Bytes, got: Bytes)
    requires |iv| == p.ivLen <= |got|
    requires got <= iv + Mask(p, Stream(iv, 0), text)
    ensures Received(p, s, got) == (s.(de := Some(Stream(iv, |got| - p.ivLen))), text[..|got| - p.ivLen])
  {
    var c, k := Stream(iv, 0), |got| - p.ivLen;
    assert got[..p.ivLen] == iv;
    assert got[p.ivLen..] == Mask(p, c, text)[..k];
    MaskPrefix(p, c, text, k);
    MaskTwice(p, c, text[..k]);
  }

  /** Delivered completely, the stream comes out unchanged exactly when the IV arrived in one piece. */
  lemma StreamRoundTripExact(p: Profile, sender: EncState, parts: seq<Bytes>, receiver: EncState,
                             frags: seq<Bytes>)
    requires sender.en.None? && |sender.nextIV| == p.ivLen && parts != []
    requires receiver.de.None?
    requires Flatten(frags) == EncryptEach(p, sender, parts).1
    ensures DecryptEach(p, receiver, frags).1 == Flatten(parts)
       <==> IVInOnePiece(p.ivLen, frags) || Flatten(parts) == []
  {
    hide EncryptEach, DecryptEach, Skipped;
    var n := Skipped(p.ivLen, frags);
    EncryptEachWire(p, sender, parts);
    if IVInOnePiece(p.ivLen, frags) {
      StreamRoundTrip(p, sender, parts, receiver, frags);
    } else {
      DecryptEachPlain(p, receiver, frags, n);
      FlattenSplit(frags, n);
    }
  }

  // ----- Two directions on one instance -----

  datatype Call = EncryptCall(data: Bytes) | DecryptCall(data: Bytes)

  /** A mixed run: final state, everything encrypt returned, everything decrypt returned. */
  function Mixed(p: Profile, s: EncState, calls: seq<Call>): (EncState, Bytes, Bytes) {
    if calls == [] then (s, [], [])
    else
      var (t, w, x) := Mixed(p, s, Front(calls));
      match Last(calls)
      case EncryptCall(d) => var (u, o) := Encrypt(p, t, d); (u, w + o, x)
      case DecryptCall(d) => var (u, o) := Decrypt(p, t, d); (u, w, x + o)
  }

  function Encrypted(calls: seq<Call>): seq<Bytes> {
    if calls == [] then []
    else Encrypted(Front(calls)) + if Last(calls).EncryptCall? then [Last(calls).data] else []
  }

  function Decrypted(calls: seq<Call>): seq<Bytes> {
    if calls == [] then []
    else Decrypted(Front(calls)) + if Last(calls).DecryptCall? then [Last(calls).data] else []
  }

  lemma FrontOfAppend<T>(s: seq<T>, x: T)
    ensures Front(s + [x]) == s && Last(s + [x]) == x
  {
  }

  /** Encrypting and decrypting on one instance do not disturb each other, in any interleaving. */
  lemma {:induction false} DirectionsIndependent(p: Profile, s: EncState, calls: seq<Call>)
    ensures var (t, w, x) := Mixed(p, s, calls);
      && (t.en, w) == (EncryptEach(p, s, Encrypted(calls)).0.en, EncryptEach(p, s, Encrypted(calls)).1)
      && (t.de, x) == (DecryptEach(p, s, Decrypted(calls)).0.de, DecryptEach(p, s, Decrypted(calls)).1)
      && t.nextIV == EncryptEach(p, s, Encrypted(calls)).0.nextIV
  {
    hide Encrypt, Decrypt;
    if calls != [] {
      var front, d := Front(calls), Last(calls).data;
      DirectionsIndependent(p, s, front);
      var t := Mixed(p, s, front).0;
      if Last(calls).EncryptCall? {
        FrontOfAppend(Encrypted(front), d);
        EncryptLocal(p, t, EncryptEach(p, s, Encrypted(front)).0, d);
        assert Decrypted(calls) == Decrypted(front);
      } else {
        FrontOfAppend(Decrypted(front), d);
        DecryptLocal(p, t, DecryptEach(p, s, Decrypted(front)).0, d);
        assert Encrypted(calls) == Encrypted(front);
      }
    }
  }

  lemma EncryptLocal(p: Profile, s: EncState, t: EncState, d: Bytes)
    requires s.en == t.en && s.nextIV == t.nextIV
    ensures var (u, o) := Encrypt(p, s, d);
      && o == Encrypt(p, t, d).1 && u.en == Encrypt(p, t, d).0.en
      && u.nextIV == Encrypt(p, t, d).0.nextIV == s.nextIV && u.de == s.de
  {
  }

  lemma DecryptLocal(p: Profile, s: EncState, t: EncState, d: Bytes)
    requires s.de == t.de
    ensures var (u, o) := Decrypt(p, s, d);
      && o == Decrypt(p, t, d).1 && u.de == Decrypt(p, t, d).0.de
      && u.en == s.en && u.nextIV == s.nextIV
  {
  }

  // ----- Datagrams -----

  /** Whatever either side did before, a datagram decrypts to what was encrypted. */
  lemma DatagramRoundTrip(p: Profile, sender: EncState, data: Bytes, draw: Bytes, receiver: EncState)
    requires |sender.nextIV| == p.ivLen
    ensures DecryptAll(p, receiver, EncryptAll(p, sender, data, draw).1).1 == data
    ensures DecryptAll(p, receiver, EncryptAll(p, sender, data, draw).1).0.de
         == Some(Stream(sender.nextIV, |data|))
  {
    var c := Stream(sender.nextIV, 0);
    var wire := EncryptAll(p, sender, data, draw).1;
    assert wire[..p.ivLen] == sender.nextIV && wire[p.ivLen..] == Mask(p, c, data);
    MaskTwice(p, c, data);
  }

  /** A datagram shorter than an IV yields nothing; any other loses as many bytes, which are its cipher's IV. */
  lemma DatagramLength(p: Profile, s: EncState, data: Bytes)
    ensures var (t, out) := DecryptAll(p, s, data);
      if |data| < p.ivLen then t == s && out == []
      else |out| == |data| - p.ivLen && t == s.(de := Some(Stream(data[..p.ivLen], |data| - p.ivLen)))
  {
  }

  /** Byte by byte, a datagram and a stream in one piece are the IV and the data under its keystream. */
  lemma WireBytes(p: Profile, s: EncState, data: Bytes, draw: Bytes, i: nat)
    requires i < |data|
    ensures var wire := EncryptAll(p, s, data, draw).1;
      && |wire| == |s.nextIV| + |data| && wire[..|s.nextIV|] == s.nextIV
      && wire[|s.nextIV| + i] == data[i] ^ p.keystream(s.nextIV, i)
    ensures s.en == None ==> Encrypt(p, s, data).1 == EncryptAll(p, s, data, draw).1
  {
  }

  // ----- Header authentication -----

  /** QByteArray::insert, which pads with spaces when the position is past the end. */
  function Insert(s: Bytes, pos: nat, x: Bytes): Bytes {
    if pos <= |s| then s[..pos] + x + s[pos..] else s + seq(pos - |s|, _ => 32) + x
  }

  function AddHeaderAuth(p: Profile, s: EncState, data: Bytes, headerLen: nat): Bytes {
    Insert(data, headerLen, p.hmac(s.nextIV + p.key, Left(data, headerLen)))
  }

  function DeIV(s: EncState): Bytes {
    if s.de.Some? then s.de.value.iv else []
  }

  predicate VerifyHeaderAuth(p: Profile, s: EncState, data: Bytes, headerLen: nat) {
    p.hmac(DeIV(s) + p.key, Left(data, headerLen)) == Mid(data, headerLen, AUTH_LEN)
  }

  /** Within the data: the tag of the header under IV and key stands behind the header. */
  lemma HeaderAuthLayout(p: Profile, s: EncState, data: Bytes, n: nat)
    requires n <= |data|
    ensures AddHeaderAuth(p, s, data, n) == data[..n] + p.hmac(s.nextIV + p.key, data[..n]) + data[n..]
  {
  }

  /** It is verified under the IV of the receiving cipher. */
  lemma VerifiesExactly(p: Profile, s: EncState, data: Bytes, n: nat)
    requires s.de.Some? && n + 10 <= |data|
    ensures VerifyHeaderAuth(p, s, data, n) <==> p.hmac(s.de.value.iv + p.key, data[..n]) == data[n..n + 10]
  {
    assert data[n..][..10] == data[n..n + 10];
  }

  /** What a receiver under the sender's IV makes of authenticated data. */
  lemma HeaderAuthUnderSameIV(p: Profile, s: EncState, r: EncState, data: Bytes, headerLen: nat)
    requires DeIV(r) == s.nextIV
    ensures headerLen <= |data| ==>
      VerifyHeaderAuth(p, r, AddHeaderAuth(p, s, data, headerLen), headerLen)
    ensures headerLen > |data| ==>
      (VerifyHeaderAuth(p, r, AddHeaderAuth(p, s, data, headerLen), headerLen)
       <==> p.hmac(s.nextIV + p.key, data)
            == p.hmac(s.nextIV + p.key, data + seq(headerLen - |data|, _ => 32)))
  {
    var x := AddHeaderAuth(p, s, data, headerLen);
    var tag := p.hmac(s.nextIV + p.key, Left(data, headerLen));
    assert x[headerLen..][..AUTH_LEN] == tag;
    if headerLen <= |data| {
      assert x[..headerLen] == data[..headerLen];
    } else {
      assert x[..headerLen] == data + seq(headerLen - |data|, _ => 32);
    }
  }

  /** On a fresh stream, in any fragments the receiver accepts, the authenticated header verifies. */
  lemma StreamHeaderVerifies(p: Profile, s: EncState, data: Bytes, headerLen: nat,
                             receiver: EncState, frags: seq<Bytes>)
    requires s.en.None? && |s.nextIV| == p.ivLen && receiver.de.None?
    requires headerLen <= |data|
    requires Flatten(frags) == Encrypt(p, s, AddHeaderAuth(p, s, data, headerLen)).1
    requires IVInOnePiece(p.ivLen, frags)
    ensures var (r, text) := DecryptEach(p, receiver, frags);
      && DeIV(r) == s.nextIV
      && text == AddHeaderAuth(p, s, data, headerLen)
      && VerifyHeaderAuth(p, r, text, headerLen)
  {
    var x := AddHeaderAuth(p, s, data, headerLen);
    hide EncryptEach, DecryptEach, Mask, Skipped, AddHeaderAuth, VerifyHeaderAuth;
    OneCall(p, s, x);
    StreamRoundTrip(p, s, [x], receiver, frags);
    var n := Skipped(p.ivLen, frags);
    DecryptEachPlain(p, receiver, frags, n);
    FlattenSplit(frags, n);
    assert Flatten(frags) == Flatten(frags[n..]);
    ReceivedPrefix(p, receiver, s.nextIV, x, Flatten(frags));
    HeaderAuthUnderSameIV(p, s, DecryptEach(p, receiver, frags).0, data, headerLen);
  }

  lemma OneCall(p: Profile, s: EncState, x: Bytes)
    ensures EncryptEach(p, s, [x]) == Encrypt(p, s, x)
    ensures Flatten([x]) == x
  {
    assert Front([x]) == [];
    assert [] + Encrypt(p, s, x).1 == Encrypt(p, s, x).1;
    assert Flatten([x]) == x + Flatten([]) == x;
  }

  /** In a datagram the authenticated header verifies, from any state of either side. */
  lemma DatagramHeaderVerifies(p: Profile, s: EncState, data: Bytes, headerLen: nat, draw: Bytes,
                               receiver: EncState)
    requires |s.nextIV| == p.ivLen
    requires headerLen <= |data|
    ensures var x := AddHeaderAuth(p, s, data, headerLen);
      var (r, text) := DecryptAll(p, receiver, EncryptAll(p, s, x, draw).1);
      DeIV(r) == s.nextIV && text == x && VerifyHeaderAuth(p, r, text, headerLen)
  {
    var x := AddHeaderAuth(p, s, data, headerLen);
    DatagramRoundTrip(p, s, x, draw, receiver);
    HeaderAuthUnderSameIV(p, s, DecryptAll(p, receiver, EncryptAll(p, s, x, draw).1).0, data, headerLen);
  }
}
