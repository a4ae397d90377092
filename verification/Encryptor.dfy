/** The Encryptor object: two ChaCha engines created on demand, and the chunk reassembly buffer. */
module EncryptorObject {
  import opened ByteStrings
  import opened ChaChaSpec
  import opened ChaChaEngine
  import opened Streams
  import opened Chunks
  import opened IVUse

  /** A profile whose keystream is ChaCha's under its key. */
  ghost predicate ChaChaProfile(p: Profile) {
    && ValidKey(p.key)
    && (p.ivLen == 8 || p.ivLen == 12)
    && forall iv: Bytes, n: nat :: |iv| == p.ivLen ==> p.keystream(iv, n) == KeystreamByte(p.key, iv, n)
  }

  lemma MaskIsXorStream(p: Profile, c: Stream, data: Bytes)
    requires ChaChaProfile(p) && |c.iv| == p.ivLen
    ensures Mask(p, c, data) == XorStream(p.key, c.iv, c.used, data)
  {
    hide KeystreamByte;
  }

  lemma ProfileParts(p: Profile)
    requires ChaChaProfile(p)
    ensures ValidKey(p.key)
    ensures forall iv: Bytes :: |iv| == p.ivLen ==> ValidIV(iv)
  {
  }

  class Encryptor {
    const p: Profile
    var enCipherIV: Bytes
    var incompleteChunk: Bytes
    var chunkId: nat
    var enCipher: ChaCha?
    var deCipher: ChaCha?
    /** Every encrypt, encryptAll and reset call, every IV drawn, the IV of every encrypting cipher created. */
    ghost var calls: seq<Op>
    ghost var drawn: seq<Bytes>
    ghost var keys: seq<Bytes>

    /** The footprint: this object and its running ciphers. */
    ghost var Repr: set<object>

    ghost function CipherRepr(c: ChaCha?): set<object> {
      if c == null then {} else c.Repr()
    }

    ghost predicate ValidCipher(c: ChaCha?)
      reads CipherRepr(c)
    {
      hide ChaCha.Valid;
      c != null ==> c.Valid() && c.key == p.key && |c.iv| == p.ivLen
    }

    ghost predicate Valid()
      reads this, Repr
      ensures Valid() ==> this in Repr
    {
      && this in Repr && CipherRepr(enCipher) <= Repr && CipherRepr(deCipher) <= Repr
      && CipherRepr(enCipher) !! CipherRepr(deCipher)
      && |enCipherIV| == p.ivLen
      && chunkId < ID_LIMIT && !Complete(incompleteChunk)
      && (Run(calls).live <==> enCipher != null)
      && Logged(Run(calls), drawn, keys)
      && Run(calls).current < |drawn| && enCipherIV == drawn[Run(calls).current]
      && (enCipher != null ==> keys != [] && enCipher.iv == keys[|keys| - 1])
      && ChaChaProfile(p) && ValidCipher(enCipher) && ValidCipher(deCipher)
    }

    ghost function Running(c: ChaCha?): Option<Stream>
      reads c
    {
      if c == null then None else Some(Stream(c.iv, c.Consumed()))
    }

    /** The abstract value. */
    ghost function View(): EncState
      reads this, enCipher, deCipher
    {
      EncState(enCipherIV, Running(enCipher), Running(deCipher), incompleteChunk, chunkId)
    }

    /** draw is what the random generator returns. */
    constructor (p: Profile, draw: Bytes)
      requires ChaChaProfile(p) && |draw| == p.ivLen
      ensures Valid() && fresh(Repr)
      ensures this.p == p
      ensures View() == EncState(draw, None, None, [], 0)
      ensures calls == [] && drawn == [draw] && keys == []
    {
      NotComplete();
      NothingLogged(draw);
      this.p := p;
      enCipherIV := draw;
      incompleteChunk := [];
      chunkId := 0;
      enCipher := null;
      deCipher := null;
      calls, drawn, keys := [], [draw], [];
      Repr := {this};
    }

    method Reset(draw: Bytes)
      requires Valid() && |draw| == p.ivLen
      modifies this
      ensures Valid() && Repr == old(Repr)
      ensures View() == Streams.Reset(old(View()), draw)
      ensures calls == old(calls) + [ResetOp] && keys == old(keys)
      ensures drawn == old(drawn) + if old(enCipher) != null then [draw] else []
    {
      hide ChaChaProfile, Run, Logged, Complete, ChaCha.Valid;
      RunStep(calls, ResetOp);
      LoggedStep(Run(calls), drawn, keys, ResetOp, draw);
      assert drawn + [] == drawn && keys + [] == keys;
      calls := calls + [ResetOp];
      if enCipher != null {
        enCipher := null;
        enCipherIV := draw;
        drawn := drawn + [draw];
      }
      if deCipher != null {
        deCipher := null;
      }
      chunkId := 0;
    }

    /** A new cipher under iv that has processed its first data. */
    method StartCipher(iv: Bytes, data: Bytes) returns (cipher: ChaCha, masked: Bytes)
      requires ChaChaProfile(p) && |iv| == p.ivLen
      ensures fresh(cipher.Repr()) && cipher.Valid()
      ensures cipher.key == p.key && cipher.iv == iv && cipher.Consumed() == |data|
      ensures masked == Mask(p, Stream(iv, 0), data)
    {
      hide ChaChaProfile, XorStream, Mask, ChaCha.Valid;
      ProfileParts(p);
      MaskIsXorStream(p, Stream(iv, 0), data);
      cipher := new ChaCha(p.key, iv);
      masked := cipher.Update(data);
    }

    method Encrypt(data: Bytes) returns (out: Bytes)
      requires Valid()
      modifies Repr
      ensures Valid() && fresh(Repr - old(Repr))
      ensures (View(), out) == Streams.Encrypt(p, old(View()), data)
      ensures calls == old(calls) + [EncryptOp] && drawn == old(drawn)
      ensures keys == old(keys) + if old(enCipher) == null then [enCipher.iv] else []
    {
      hide ChaChaProfile, Run, Logged, Complete, XorStream, Mask, ChaCha.Valid;
      RunStep(calls, EncryptOp);
      LoggedStep(Run(calls), drawn, keys, EncryptOp, []);
      assert drawn + [] == drawn && keys + [] == keys;
      calls := calls + [EncryptOp];
      if enCipher == null {
        var masked;
        enCipher, masked := StartCipher(enCipherIV, data);
        keys := keys + [enCipher.iv];
        Repr := Repr + enCipher.Repr();
        out := enCipherIV + masked;
      } else {
        MaskIsXorStream(p, Stream(enCipher.iv, enCipher.Consumed()), data);
        out := enCipher.Update(data);
      }
    }

    method Decrypt(data: Bytes) returns (out: Bytes)
      requires Valid()
      modifies Repr
      ensures Valid() && fresh(Repr - old(Repr))
      ensures (View(), out) == Streams.Decrypt(p, old(View()), data)
      ensures calls == old(calls) && drawn == old(drawn) && keys == old(keys)
    {
      hide ChaChaProfile, Run, Logged, Complete, XorStream, Mask, ChaCha.Valid;
      out := [];
      if deCipher == null {
        var iv := Mid(data, 0, p.ivLen);
        if |iv| != p.ivLen {
          return;
        }
        assert iv == data[..p.ivLen];
        deCipher, out := StartCipher(iv, Drop(data, p.ivLen));
        Repr := Repr + deCipher.Repr();
      } else {
        MaskIsXorStream(p, Stream(deCipher.iv, deCipher.Consumed()), data);
        out := deCipher.Update(data);
      }
    }

    method EncryptAll(data: Bytes, draw: Bytes) returns (out: Bytes)
      requires Valid() && |draw| == p.ivLen
      modifies Repr
      ensures Valid() && fresh(Repr - old(Repr))
      ensures (View(), out) == Streams.EncryptAll(p, old(View()), data, draw)
      ensures calls == old(calls) + [EncryptAllOp] && drawn == old(drawn) + [draw]
      ensures enCipher != null && keys == old(keys) + [enCipher.iv]
    {
      hide ChaChaProfile, Run, Logged, Complete, XorStream, Mask, ChaCha.Valid;
      RunStep(calls, EncryptAllOp);
      LoggedStep(Run(calls), drawn, keys, EncryptAllOp, draw);
      calls := calls + [EncryptAllOp];
      drawn := drawn + [draw];
      var iv := enCipherIV;
      enCipherIV := draw;
      var masked;
      enCipher, masked := StartCipher(iv, data);
      keys := keys + [enCipher.iv];
      Repr := Repr + enCipher.Repr();
      out := iv + masked;
    }

    method DecryptAll(data: Bytes) returns (out: Bytes)
      requires Valid()
      modifies Repr
      ensures Valid() && fresh(Repr - old(Repr))
      ensures (View(), out) == Streams.DecryptAll(p, old(View()), data)
      ensures calls == old(calls) && drawn == old(drawn) && keys == old(keys)
    {
      hide ChaChaProfile, Run, Logged, Complete, XorStream, Mask, ChaCha.Valid;
      var iv := Mid(data, 0, p.ivLen);
      if |iv| != p.ivLen {
        return [];
      }
      assert iv == data[..p.ivLen];
      deCipher, out := StartCipher(iv, Drop(data, p.ivLen));
      Repr := Repr + deCipher.Repr();
    }

    method DeCipherIV() returns (iv: Bytes)
      requires Valid()
      ensures iv == DeIV(View())
    {
      if deCipher != null {
        iv := deCipher.iv;
      } else {
        iv := [];
      }
    }

    method AddHeaderAuth(data: Bytes, headerLen: nat) returns (out: Bytes)
      requires Valid()
      ensures out == Streams.AddHeaderAuth(p, View(), data, headerLen)
    {
      var authCode := p.hmac(enCipherIV + p.key, Left(data, headerLen));
      out := Insert(data, headerLen, authCode);
    }

    method VerifyHeaderAuth(data: Bytes, headerLen: nat) returns (ok: bool)
      requires Valid()
      ensures ok == Streams.VerifyHeaderAuth(p, View(), data, headerLen)
    {
      var iv := DeCipherIV();
      ok := p.hmac(iv + p.key, Left(data, headerLen)) == Mid(data, headerLen, AUTH_LEN);
    }

    method AddChunkAuth(data: Bytes) returns (out: Bytes)
      requires Valid()
      modifies this
      ensures Valid() && Repr == old(Repr)
      ensures out == Frame(p, old(enCipherIV), old(chunkId), data)
      ensures forall counter :: IsCounter(counter, old(chunkId)) ==>
        |out| == 12 + |data| && out[2..12] == p.hmac(old(enCipherIV) + counter, data) && out[12..] == data
      ensures View() == old(View()).(chunkId := NextId(old(chunkId)))
      ensures calls == old(calls) && drawn == old(drawn) && keys == old(keys)
    {
      hide ChaChaProfile, Run, Logged, Complete, ChaCha.Valid, BE16, BE32, IsCounter;
      var counter := BE32(chunkId);
      chunkId := (chunkId + 1) % ID_LIMIT;
      var authCode := p.hmac(enCipherIV + counter, data);
      out := BE16(|data|) + authCode + data;
      forall number | IsCounter(number, old(chunkId))
        ensures |out| == 12 + |data| && out[2..12] == p.hmac(old(enCipherIV) + number, data) && out[12..] == data
      {
        FrameLayout(p, old(enCipherIV), old(chunkId), data, number);
      }
    }

    /** Overwrites its argument in the program; here the delivered bytes are the first result. */
    method VerifyExtractChunkAuth(input: Bytes) returns (result: Bytes, verified: bool)
      requires Valid()
      modifies this
      ensures Valid() && Repr == old(Repr)
      ensures var r := Extract(p, DeIV(old(View())), old(incompleteChunk), old(chunkId), input);
        && result == Flatten(r.chunks)
        && verified == r.ok
        && View() == old(View()).(incomplete := r.rest, chunkId := r.id)
      ensures calls == old(calls) && drawn == old(drawn) && keys == old(keys)
    {
      hide ChaChaProfile, Run, Logged, Complete, ChaCha.Valid, Parse;
      var iv := DeCipherIV();
      ParseLeftover(p, iv, chunkId, incompleteChunk + input);
      result, incompleteChunk, chunkId, verified := ExtractChunks(p, iv, chunkId, incompleteChunk + input);
    }
  }

  /** The reassembly loop: position, result and counter move together until a frame is missing or bad. */
  method ExtractChunks(p: Profile, iv: Bytes, startId: nat, data: Bytes)
    returns (result: Bytes, incomplete: Bytes, id: nat, verified: bool)
    ensures var r := Parse(p, iv, startId, data);
      result == Flatten(r.chunks) && incomplete == r.rest && id == r.id && verified == r.ok
    ensures startId < ID_LIMIT ==> id < ID_LIMIT
  {
    hide BE16, BE32, FromBE16, Flatten, Parse, Join, Prepend;
    result, incomplete, id, verified := [], [], startId, true;
    var pos := 0;
    ghost var done: seq<Bytes> := [];
    ghost var whole := Parse(p, iv, id, data);
    NothingDone(data, whole);
    while pos < |data|
      invariant 0 <= pos <= |data|
      invariant verified && incomplete == [] && result == Flatten(done)
      invariant startId < ID_LIMIT ==> id < ID_LIMIT
      invariant whole == Join(Parsed(done, [], 0, true), Parse(p, iv, id, data[pos..]))
      decreases |data| - pos
    {
      ghost var rest := data[pos..];
      ParseCases(p, iv, id, rest);
      var len := FromBE16(At(data, pos), At(data, pos + 1));
      assert len == ChunkLength(rest);
      if |data| - pos - 2 - AUTH_LEN < len {
        incomplete := data[pos..];
        JoinLast(done, rest, id, true);
        return;
      }
      var counter := BE32(id);
      var chunk := Mid(data, pos + HEAD, len);
      var tag := Mid(data, pos + 2, AUTH_LEN);
      MidOfRest(data, pos, HEAD, len);
      MidOfRest(data, pos, 2, AUTH_LEN);
      verified := verified && p.hmac(iv + counter, chunk) == tag;
      assert verified == Authentic(p, iv, id, rest);
      id := (id + 1) % ID_LIMIT;
      if !verified {
        JoinLast(done, [], id, false);
        return;
      }
      result := result + chunk;
      pos := pos + HEAD + len;
      assert data[pos..] == rest[HEAD + len..];
      FlattenAppend(done, chunk);
      JoinMore(done, chunk, Parse(p, iv, id, data[pos..]));
      done := done + [chunk];
    }
    ParseCases(p, iv, id, data[pos..]);
    JoinLast(done, [], id, true);
  }

  lemma MidOfRest(data: Bytes, pos: nat, skip: nat, len: nat)
    requires pos + skip + len <= |data|
    ensures Mid(data, pos + skip, len) == data[pos..][skip..skip + len]
  {
  }

  lemma JoinLast(done: seq<Bytes>, rest: Bytes, id: nat, ok: bool)
    ensures Join(Parsed(done, [], 0, true), Parsed([], rest, id, ok)) == Parsed(done, rest, id, ok)
  {
    assert done + [] == done;
  }

  lemma NothingDone(data: Bytes, r: Parsed)
    ensures data[0..] == data && Join(Parsed([], [], 0, true), r) == r && Flatten([]) == []
  {
    assert [] + r.chunks == r.chunks;
  }

  lemma JoinMore(done: seq<Bytes>, chunk: Bytes, r: Parsed)
    ensures Join(Parsed(done, [], 0, true), Prepend(chunk, r)) == Join(Parsed(done + [chunk], [], 0, true), r)
  {
    assert done + ([chunk] + r.chunks) == done + [chunk] + r.chunks;
  }
}
