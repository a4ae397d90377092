/** Chunk authentication over an encrypted stream: all four Encryptor operations together. */
module AuthenticatedStream {
  import opened Bits
  import opened ByteStrings
  import opened Streams
  import opened Chunks

  /** addChunkAuth then encrypt, for each chunk: the final state and the wire. */
  function Send(p: Profile, s: EncState, chunks: seq<Bytes>): (EncState, Bytes) {
    if chunks == [] then (s, [])
    else
      var (t, w) := Send(p, s, Front(chunks));
      var (u, o) := Encrypt(p, t.(chunkId := NextId(t.chunkId)), Frame(p, t.nextIV, t.chunkId, Last(chunks)));
      (u, w + o)
  }

  /** decrypt then verifyExtractChunkAuth, for each fragment: state, output, and whether every call succeeded. */
  function Receive(p: Profile, r: EncState, frags: seq<Bytes>): (EncState, Bytes, bool) {
    if frags == [] then (r, [], true)
    else
      var (t, out, ok) := Receive(p, r, Front(frags));
      var (u, d) := Decrypt(p, t, Last(frags));
      var q := Extract(p, DeIV(u), u.incomplete, u.chunkId, d);
      (u.(incomplete := q.rest, chunkId := q.id), out + Flatten(q.chunks), ok && q.ok)
  }

  /** The frames, one by one. */
  function FrameList(p: Profile, iv: Bytes, id: nat, chunks: seq<Bytes>): seq<Bytes> {
    if chunks == [] then []
    else FrameList(p, iv, id, Front(chunks)) + [Frame(p, iv, IdAfter(id, |chunks| - 1), Last(chunks))]
  }

  lemma {:induction false} IdAfterLast(id: nat, n: nat)
    ensures IdAfter(id, n + 1) == NextId(IdAfter(id, n))
    decreases n
  {
    if n != 0 {
      IdAfterLast(NextId(id), n - 1);
    }
  }

  lemma {:induction false} FramesAppend(p: Profile, iv: Bytes, id: nat, chunks: seq<Bytes>, last: Bytes)
    ensures Frames(p, iv, id, chunks + [last])
         == Frames(p, iv, id, chunks) + Frame(p, iv, IdAfter(id, |chunks|), last)
    decreases chunks
  {
    hide Frame;
    if chunks == [] {
      assert chunks + [last] == [last];
      MoreFrames(p, iv, id, last, []);
      assert [last] + [] == [last];
    } else {
      var c, rest := chunks[0], chunks[1..];
      assert chunks == [c] + rest && chunks + [last] == [c] + (rest + [last]);
      MoreFrames(p, iv, id, c, rest);
      MoreFrames(p, iv, id, c, rest + [last]);
      FramesAppend(p, iv, NextId(id), rest, last);
    }
  }

  lemma {:induction false} FrameListFlat(p: Profile, iv: Bytes, id: nat, chunks: seq<Bytes>)
    ensures Flatten(FrameList(p, iv, id, chunks)) == Frames(p, iv, id, chunks)
  {
    hide Frame;
    if chunks != [] {
      FrameListFlat(p, iv, id, Front(chunks));
      FlattenAppend(FrameList(p, iv, id, Front(chunks)), Frame(p, iv, IdAfter(id, |chunks| - 1), Last(chunks)));
      FramesAppend(p, iv, id, Front(chunks), Last(chunks));
      assert Front(chunks) + [Last(chunks)] == chunks;
    }
  }

  /** Sending chunks is encrypting their frames. */
  lemma {:induction false} SendIsEncrypt(p: Profile, s: EncState, chunks: seq<Bytes>)
    ensures var (t, w) := Send(p, s, chunks);
      var (u, x) := EncryptEach(p, s, FrameList(p, s.nextIV, s.chunkId, chunks));
      && w == x && t.en == u.en && t.nextIV == u.nextIV == s.nextIV && t.chunkId == IdAfter(s.chunkId, |chunks|)
  {
    hide Frame, Encrypt;
    if chunks != [] {
      var front, id := Front(chunks), IdAfter(s.chunkId, |chunks| - 1);
      SendIsEncrypt(p, s, front);
      IdAfterLast(s.chunkId, |chunks| - 1);
      var f := Frame(p, s.nextIV, id, Last(chunks));
      FrontOfAppend(FrameList(p, s.nextIV, s.chunkId, front), f);
      var t := Send(p, s, front).0;
      EncryptLocal(p, t.(chunkId := NextId(t.chunkId)),
                   EncryptEach(p, s, FrameList(p, s.nextIV, s.chunkId, front)).0, f);
      EncryptKeepsId(p, t.(chunkId := NextId(t.chunkId)), f);
    }
  }

  lemma EncryptKeepsId(p: Profile, s: EncState, d: Bytes)
    ensures Encrypt(p, s, d).0.chunkId == s.chunkId
  {
  }

  lemma DecryptKeepsChunks(p: Profile, s: EncState, d: Bytes)
    ensures Decrypt(p, s, d).0.chunkId == s.chunkId && Decrypt(p, s, d).0.incomplete == s.incomplete
    ensures Decrypt(p, s, d).0.de == None ==> Decrypt(p, s, d).1 == []
    ensures s.de.Some? ==> Decrypt(p, s, d).0.de.Some? && DeIV(Decrypt(p, s, d).0) == DeIV(s)
  {
  }

  /** The calls before each fragment ran under iv, or under no cipher and on nothing. */
  ghost predicate UnderIV(p: Profile, r: EncState, frags: seq<Bytes>, iv: Bytes) {
    forall m :: 0 <= m <= |frags| ==>
      var de := DecryptEach(p, r, frags[..m]).0.de;
      de == None || de.value.iv == iv
  }

  lemma UnderIVFront(p: Profile, r: EncState, frags: seq<Bytes>, iv: Bytes)
    requires frags != [] && UnderIV(p, r, frags, iv)
    ensures UnderIV(p, r, Front(frags), iv)
    ensures var de := DecryptEach(p, r, frags).0.de; de == None || de.value.iv == iv
  {
    hide DecryptEach;
    forall m | 0 <= m <= |frags| - 1
      ensures Front(frags)[..m] == frags[..m]
    {
    }
    assert frags[..|frags|] == frags;
  }

  /** Receiving fragment by fragment is parsing everything decrypted. */
  lemma {:induction false} ReceiveIsParse(p: Profile, r: EncState, frags: seq<Bytes>, iv: Bytes)
    requires r.de == None && r.incomplete == [] && UnderIV(p, r, frags, iv)
    ensures var (u, out, ok) := Receive(p, r, frags);
      var w := Parse(p, iv, r.chunkId, DecryptEach(p, r, frags).1);
      && u.de == DecryptEach(p, r, frags).0.de
      && (u.de == None ==> DecryptEach(p, r, frags).1 == [])
      && (ok <==> w.ok)
      && (ok ==> out == Flatten(w.chunks) && u.incomplete == w.rest && u.chunkId == w.id)
  {
    hide Decrypt, Parse, Join, Complete;
    if frags == [] {
      NotComplete();
      ParseNothing(p, iv, r.chunkId, []);
    } else {
      var front, last := Front(frags), Last(frags);
      UnderIVFront(p, r, frags, iv);
      ReceiveIsParse(p, r, front, iv);
      var (t, out, ok) := Receive(p, r, front);
      var before := DecryptEach(p, r, front);
      DecryptLocal(p, t, before.0, last);
      DecryptKeepsChunks(p, t, last);
      DecryptKeepsChunks(p, before.0, last);
      var (u, d) := Decrypt(p, t, last);
      ReceiveStep(p, iv, r.chunkId, before.1, d);
      if u.de == None {
        NotComplete();
        NoneBefore(p, t, last);
        ParseNothing(p, iv, r.chunkId, []);
        ParseNothing(p, DeIV(u), r.chunkId, []);
        assert [] + d == [] && before.1 + d == [];
      }
    }
  }

  lemma NoneBefore(p: Profile, s: EncState, d: Bytes)
    requires Decrypt(p, s, d).0.de == None
    ensures s.de == None
  {
  }

  lemma ReceiveStep(p: Profile, iv: Bytes, id: nat, before: Bytes, d: Bytes)
    ensures var w := Parse(p, iv, id, before);
      var q := Parse(p, iv, w.id, w.rest + d);
      var v := Parse(p, iv, id, before + d);
      && v.ok == (w.ok && q.ok)
      && (w.ok ==> Flatten(v.chunks) == Flatten(w.chunks) + Flatten(q.chunks) && v.rest == q.rest && v.id == q.id)
  {
    hide Parse;
    ParseResumes(p, iv, id, before, d);
    var w := Parse(p, iv, id, before);
    FlattenConcat(w.chunks, Parse(p, iv, w.id, w.rest + d).chunks);
  }

  /**
   Authenticated stream end to end: for chunks that fit the length field and any fragments of the wire whose
   first holds the IV, every verification succeeds and the output is the chunks that have arrived whole.
   */
  lemma AuthenticatedEndToEnd(p: Profile, s: EncState, chunks: seq<Bytes>, r: EncState, frags: seq<Bytes>)
    requires s.en == None && |s.nextIV| == p.ivLen && chunks != [] && FitsAll(chunks)
    requires r.de == None && r.incomplete == [] && r.chunkId == s.chunkId
    requires Flatten(frags) <= Send(p, s, chunks).1
    requires IVInOnePiece(p.ivLen, frags)
    ensures var (u, out, ok) := Receive(p, r, frags);
      var k := WholeFrames(p, s.nextIV, s.chunkId, chunks, |DecryptEach(p, r, frags).1|);
      && ok && out == Flatten(chunks[..k])
      && (Flatten(frags) == Send(p, s, chunks).1 ==> k == |chunks| && u.incomplete == [])
  {
    hide Send, Receive, EncryptEach, DecryptEach, Frames, FrameList, Parse, Mask, Skipped, Feed, WholeFrames,
         IVInOnePiece, UnderIV, FitsAll, IdAfter;
    var frames := FrameList(p, s.nextIV, s.chunkId, chunks);
    SendIsEncrypt(p, s, chunks);
    FrameListFlat(p, s.nextIV, s.chunkId, chunks);
    FramesExist(p, s.nextIV, s.chunkId, chunks);
    StreamRoundTrip(p, s, frames, r, frags);
    StaysUnderIV(p, s, frames, r, frags);
    ReceiveIsParse(p, r, frags, s.nextIV);
    var plain := DecryptEach(p, r, frags).1;
    OneFragment(plain);
    ChunkRoundTrip(p, s.nextIV, s.chunkId, chunks, [plain]);
    NotComplete();
    FeedIsParse(p, s.nextIV, [], s.chunkId, [plain]);
    assert [] + plain == plain;
  }

  lemma OneFragment(d: Bytes)
    ensures Flatten([d]) == d
  {
    assert Flatten([d]) == d + Flatten([]) == d;
  }

  lemma FramesExist(p: Profile, iv: Bytes, id: nat, chunks: seq<Bytes>)
    requires chunks != []
    ensures FrameList(p, iv, id, chunks) != []
  {
  }

  /** Whatever has arrived so far, the receiver's cipher is under the sender's IV. */
  lemma StaysUnderIV(p: Profile, s: EncState, parts: seq<Bytes>, r: EncState, frags: seq<Bytes>)
    requires s.en == None && |s.nextIV| == p.ivLen && parts != [] && r.de == None
    requires Flatten(frags) <= EncryptEach(p, s, parts).1 && IVInOnePiece(p.ivLen, frags)
    ensures UnderIV(p, r, frags, s.nextIV)
  {
    hide EncryptEach, DecryptEach, Mask, Skipped, Received;
    forall m | 0 <= m <= |frags|
      ensures var de := DecryptEach(p, r, frags[..m]).0.de; de == None || de.value.iv == s.nextIV
    {
      var n := Skipped(p.ivLen, frags);
      var k := if n <= m then n else m;
      DecryptEachPlain(p, r, frags[..m], k);
      if n < m {
        FlattenSplit(frags, m);
        FlattenSplit(frags[..m], n);
        assert frags[..m][..n] == frags[..n];
        assert Flatten(frags[..m]) == Flatten(frags[..m][n..]);
        EncryptEachWire(p, s, parts);
        ReceivedPrefix(p, r, s.nextIV, Flatten(parts), Flatten(frags[..m]));
      }
    }
  }

  // ----- After a reset -----

  /** Two instances that are reset, whatever they did before, carry a new stream of chunks if none was unfinished. */
  lemma ResetStartsAnew(p: Profile, s: EncState, draw: Bytes, chunks: seq<Bytes>,
                        r: EncState, draw': Bytes, frags: seq<Bytes>)
    requires |s.nextIV| == |draw| == p.ivLen && chunks != [] && FitsAll(chunks)
    requires r.incomplete == []
    requires Flatten(frags) <= Send(p, Reset(s, draw), chunks).1
    requires IVInOnePiece(p.ivLen, frags)
    ensures var (u, out, ok) := Receive(p, Reset(r, draw'), frags);
      var iv, plain := Reset(s, draw).nextIV, DecryptEach(p, Reset(r, draw'), frags).1;
      var k := WholeFrames(p, iv, 0, chunks, |plain|);
      && ok && out == Flatten(chunks[..k])
      && (Flatten(frags) == Send(p, Reset(s, draw), chunks).1 ==> k == |chunks| && u.incomplete == [])
  {
    hide Send, Receive, DecryptEach, WholeFrames, IVInOnePiece, FitsAll;
    AuthenticatedEndToEnd(p, Reset(s, draw), chunks, Reset(r, draw'), frags);
  }

  /** A stream of chunks sent and received after a reset of both sides comes out whole, if it arrives whole. */
  ghost predicate Restarts(p: Profile, s: EncState, draw: Bytes, chunks: seq<Bytes>,
                           r: EncState, draw': Bytes, frags: seq<Bytes>) {
    |s.nextIV| == |draw| == p.ivLen && chunks != [] && FitsAll(chunks)
    && Flatten(frags) == Send(p, Reset(s, draw), chunks).1 && IVInOnePiece(p.ivLen, frags) ==>
      var (u, out, ok) := Receive(p, Reset(r, draw'), frags);
      ok && out == Flatten(chunks) && u.incomplete == []
  }

  /** r is as good as new after a reset, whoever sends whatever to it. */
  ghost predicate StartsAnew(p: Profile, r: EncState) {
    forall s: EncState, draw: Bytes, chunks: seq<Bytes>, draw': Bytes, frags: seq<Bytes> ::
      Restarts(p, s, draw, chunks, r, draw', frags)
  }

  /** That is so if and only if no chunk was unfinished: reset keeps the leftover, and every leftover does harm. */
  lemma StartsAnewExactly(p: Profile, r: EncState)
    requires !Complete(r.incomplete)
    ensures StartsAnew(p, r) <==> r.incomplete == []
  {
    hide Restarts, Complete;
    if r.incomplete == [] {
      forall s: EncState, draw: Bytes, chunks: seq<Bytes>, draw': Bytes, frags: seq<Bytes>
        ensures Restarts(p, s, draw, chunks, r, draw', frags)
      {
        RestartsClean(p, s, draw, chunks, r, draw', frags);
      }
    } else {
      var iv := seq(p.ivLen, _ => 0);
      var s := EncState(iv, None, None, [], 0);
      OneEmptyChunkFails(p, s, iv, r);
      assert !Restarts(p, s, iv, [[]], r, iv, [Send(p, Reset(s, iv), [[]]).1]);
    }
  }

  lemma RestartsClean(p: Profile, s: EncState, draw: Bytes, chunks: seq<Bytes>,
                      r: EncState, draw': Bytes, frags: seq<Bytes>)
    requires r.incomplete == []
    ensures Restarts(p, s, draw, chunks, r, draw', frags)
  {
    hide Send, Receive, DecryptEach, WholeFrames, IVInOnePiece, FitsAll;
    if |s.nextIV| == |draw| == p.ivLen && chunks != [] && FitsAll(chunks)
       && Flatten(frags) == Send(p, Reset(s, draw), chunks).1 && IVInOnePiece(p.ivLen, frags) {
      ResetStartsAnew(p, s, draw, chunks, r, draw', frags);
      assert chunks[..|chunks|] == chunks;
    }
  }

  lemma OneEmptyChunkFails(p: Profile, s: EncState, draw: Bytes, r: EncState)
    requires |s.nextIV| == |draw| == p.ivLen && r.incomplete != [] && !Complete(r.incomplete)
    ensures !Restarts(p, s, draw, [[]], r, draw, [Send(p, Reset(s, draw), [[]]).1])
  {
    hide Frame, Mask, Parse, Complete, Decrypt, Encrypt;
    var s1, r1 := Reset(s, draw), Reset(r, draw);
    var wire, frame := Send(p, s1, [[]]).1, Frame(p, s1.nextIV, 0, []);
    SendOne(p, s1, []);
    WholeWire(p, s1, frame, r1);
    ReceiveOne(p, r1, wire);
    OneFragment(wire);
    OneFragment([]);
    WireHoldsIV(p, s1, frame);
    LeftoverHarms(p, s1.nextIV, 0, r.incomplete);
    assert [wire][..0] == [];
  }

  lemma WireHoldsIV(p: Profile, s: EncState, data: Bytes)
    requires s.en == None
    ensures |Encrypt(p, s, data).1| >= |s.nextIV|
  {
  }

  /**
   An example: one byte 0xff, which a receiver keeps when it comes alone, and any next chunk below 65279 bytes,
   which vanishes although without that byte it is delivered.
   */
  lemma ResetKeepsLeftover(p: Profile, s: EncState, draw: Bytes, chunk: Bytes, r: EncState, draw': Bytes)
    requires |s.nextIV| == |draw| == p.ivLen && |chunk| < 0xfeff
    requires r.incomplete == [0xff]
    ensures forall iv: Bytes, id: nat :: Extract(p, iv, [], id, [0xff]) == Parsed([], [0xff], id, true)
    ensures var s1, r1 := Reset(s, draw), Reset(r, draw');
      var (u, out, ok) := Receive(p, r1, [Send(p, s1, [chunk]).1]);
      && Receive(p, r1.(incomplete := []), [Send(p, s1, [chunk]).1]).1 == chunk
      && out == [] && u.incomplete == [0xff] + Frame(p, s1.nextIV, 0, chunk)
  {
    hide Frame, Mask, Parse, Complete, Decrypt, Encrypt, FitsAll, WholeFrames;
    var s1, r1 := Reset(s, draw), Reset(r, draw');
    var wire, frame := Send(p, s1, [chunk]).1, Frame(p, s1.nextIV, 0, chunk);
    SendOne(p, s1, chunk);
    WholeWire(p, s1, frame, r1);
    WholeWire(p, s1, frame, r1.(incomplete := []));
    ReceiveOne(p, r1, wire);
    ReceiveOne(p, r1.(incomplete := []), wire);
    FrameAlone(p, s1.nextIV, 0, chunk);
    LongLeftover(p, s1.nextIV, 0, chunk);
    ParseNothing(p, s1.nextIV, 0, [0xff] + frame);
    assert [] + frame == frame;
    forall iv: Bytes, id: nat
      ensures Extract(p, iv, [], id, [0xff]) == Parsed([], [0xff], id, true)
    {
      OneByteWaits(p, iv, id, 0xff);
    }
  }

  lemma OneByteWaits(p: Profile, iv: Bytes, id: nat, b: Byte)
    ensures Extract(p, iv, [], id, [b]) == Parsed([], [b], id, true)
  {
    hide Parse, Value;
    assert [] + [b] == [b];
    ParseNothing(p, iv, id, [b]);
  }

  lemma SendOne(p: Profile, s: EncState, chunk: Bytes)
    requires s.chunkId == 0
    ensures Send(p, s, [chunk]).1 == Encrypt(p, s, Frame(p, s.nextIV, 0, chunk)).1
  {
    hide Frame, Mask;
    assert Front([chunk]) == [];
    var f := Frame(p, s.nextIV, 0, chunk);
    EncryptLocal(p, s.(chunkId := NextId(0)), s, f);
    assert [] + Encrypt(p, s, f).1 == Encrypt(p, s, f).1;
  }

  lemma WholeWire(p: Profile, s: EncState, data: Bytes, r: EncState)
    requires s.en == None && |s.nextIV| == p.ivLen && r.de == None
    ensures var (u, plain) := Decrypt(p, r, Encrypt(p, s, data).1);
      plain == data && DeIV(u) == s.nextIV && u.incomplete == r.incomplete && u.chunkId == r.chunkId
  {
    hide Mask;
    DatagramRoundTrip(p, s, data, [], r);
  }

  lemma ReceiveOne(p: Profile, r: EncState, wire: Bytes)
    ensures var (u, d) := Decrypt(p, r, wire);
      var q := Extract(p, DeIV(u), u.incomplete, u.chunkId, d);
      && Receive(p, r, [wire]).0.incomplete == q.rest
      && Receive(p, r, [wire]).1 == Flatten(q.chunks)
      && Receive(p, r, [wire]).2 == q.ok
  {
    hide Decrypt, Extract;
    assert Front([wire]) == [];
    var (u, d) := Decrypt(p, r, wire);
    var q := Extract(p, DeIV(u), u.incomplete, u.chunkId, d);
    assert [] + Flatten(q.chunks) == Flatten(q.chunks);
  }

  lemma FrameAlone(p: Profile, iv: Bytes, id: nat, chunk: Bytes)
    requires |chunk| < 0x1_0000
    ensures Flatten(Parse(p, iv, id, Frame(p, iv, id, chunk)).chunks) == chunk
  {
    hide Frame, Parse;
    FrameReadsBackExactly(p, iv, id, chunk);
    OneFragment(chunk);
  }

  lemma LongLeftover(p: Profile, iv: Bytes, id: nat, chunk: Bytes)
    requires |chunk| < 0xfeff
    ensures !Complete([0xff] + Frame(p, iv, id, chunk))
  {
    hide BE16, BE32, Value, ToByte;
    var data := [0xff] + Frame(p, iv, id, chunk);
    assert data[0] == 0xff && |data| == 1 + HEAD + |chunk|;
    NextValue(0xff);
  }
}
