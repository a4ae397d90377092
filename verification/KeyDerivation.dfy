/** Deriving the cipher key from the password, as EVP_BytesToKey does with MD5 and one iteration. */
module KeyDerivation {
  import opened ByteStrings

  const MD5_LEN := 16

  type Digest = d: Bytes | |d| == MD5_LEN witness seq(MD5_LEN, _ => 0)
  type Hash = Bytes -> Digest

  /** Digest i hashes the digest before it followed by the password. */
  function ChainDigest(md5: Hash, password: Bytes, i: nat): Digest {
    md5((if i == 0 then [] else ChainDigest(md5, password, i - 1)) + password)
  }

  /** The first n digests in a row. */
  function Chain(md5: Hash, password: Bytes, n: nat): (c: Bytes)
    ensures |c| == MD5_LEN * n
  {
    if n == 0 then [] else Chain(md5, password, n - 1) + ChainDigest(md5, password, n - 1)
  }

  /** The fewest digests that cover keyLen bytes. */
  function Needed(keyLen: nat): (n: nat)
    ensures MD5_LEN * n >= keyLen
    ensures n > 0 ==> MD5_LEN * (n - 1) < keyLen
  {
    (keyLen + MD5_LEN - 1) / MD5_LEN
  }

  /** EVP_BytesToKey: the key is cut from the shortest sufficient chain. */
  function EvpKey(md5: Hash, password: Bytes, keyLen: nat): (key: Bytes)
    ensures |key| == keyLen
  {
    Chain(md5, password, Needed(keyLen))[..keyLen]
  }

  lemma {:induction false} ChainGrows(md5: Hash, password: Bytes, m: nat, n: nat)
    requires m <= n
    ensures Chain(md5, password, m) <= Chain(md5, password, n)
  {
    if m < n {
      ChainGrows(md5, password, m, n - 1);
    }
  }

  /** Any chain long enough yields the same key. */
  lemma LongerChainSameKey(md5: Hash, password: Bytes, keyLen: nat, n: nat)
    requires MD5_LEN * n >= keyLen
    ensures Chain(md5, password, n)[..keyLen] == EvpKey(md5, password, keyLen)
  {
    var k := Needed(keyLen);
    ChainGrows(md5, password, k, n);
    assert Chain(md5, password, k) == Chain(md5, password, n)[..MD5_LEN * k];
  }

  /** ds are the digests of the password, of the first digest and the password, and so on. */
  predicate DigestsOf(md5: Hash, password: Bytes, ds: seq<Digest>) {
    && (ds != [] ==> ds[0] == md5(password))
    && forall i :: 0 <= i < |ds| - 1 ==> ds[i + 1] == md5(ds[i] + password)
  }

  lemma {:induction false} DigestIs(md5: Hash, password: Bytes, ds: seq<Digest>, i: nat)
    requires DigestsOf(md5, password, ds) && i < |ds|
    ensures ChainDigest(md5, password, i) == ds[i]
  {
    if i == 0 {
      assert [] + password == password;
    } else {
      DigestIs(md5, password, ds, i - 1);
      assert ds[i - 1 + 1] == md5(ds[i - 1] + password);
    }
  }

  lemma {:induction false} ChainIs(md5: Hash, password: Bytes, ds: seq<Digest>, n: nat)
    requires DigestsOf(md5, password, ds) && n <= |ds|
    ensures Chain(md5, password, n) == Flatten(ds[..n])
  {
    hide ChainDigest;
    if n != 0 {
      ChainIs(md5, password, ds, n - 1);
      DigestIs(md5, password, ds, n - 1);
      assert ds[..n] == ds[..n - 1] + [ds[n - 1]];
      FlattenAppend(ds[..n - 1], ds[n - 1]);
    }
  }

  /** The derived key is what begins the concatenation of those digests, however many there are. */
  lemma KeyFromDigests(md5: Hash, password: Bytes, keyLen: nat, ds: seq<Digest>)
    requires ds != [] ==> ds[0] == md5(password)
    requires forall i :: 0 <= i < |ds| - 1 ==> ds[i + 1] == md5(ds[i] + password)
    requires 16 * |ds| >= keyLen
    ensures EvpKey(md5, password, keyLen) <= Flatten(ds)
    ensures |EvpKey(md5, password, keyLen)| == keyLen
  {
    ChainIs(md5, password, ds, |ds|);
    assert ds[..|ds|] == ds;
    LongerChainSameKey(md5, password, keyLen, |ds|);
  }

  /** A 32-byte key: two digests. */
  lemma KeyOf32(md5: Hash, password: Bytes)
    ensures EvpKey(md5, password, 32) == md5(password) + md5(md5(password) + password)
  {
    var ds: seq<Digest> := [md5(password), md5(md5(password) + password)];
    KeyFromDigests(md5, password, 32, ds);
    assert ds == [ds[0]] + [ds[1]];
    FlattenAppend([ds[0]], ds[1]);
    assert Flatten([ds[0]]) == ds[0] + Flatten([]) == ds[0];
  }

  class EncryptorPrivate {
    const md5: Hash
    const password: Bytes
    const keyLen: nat
    const ivLen: nat
    var key: Bytes

    constructor (md5: Hash, password: Bytes, keyLen: nat, ivLen: nat)
      ensures key == EvpKey(md5, password, keyLen)
      ensures this.keyLen == keyLen && this.ivLen == ivLen
    {
      this.md5 := md5;
      this.password := password;
      this.keyLen := keyLen;
      this.ivLen := ivLen;
      new;
      EvpBytesToKey();
    }

    /** The loop counts digests where bytes would do; the key comes out the same, whatever ivLen is. */
    method EvpBytesToKey()
      modifies this
      ensures key == EvpKey(md5, password, keyLen)
    {
      var m: seq<Digest> := [];
      var i := 0;
      while |m| < keyLen + ivLen
        invariant i == |m| <= keyLen + ivLen
        invariant forall k :: 0 <= k < |m| ==> m[k] == ChainDigest(md5, password, k)
      {
        var data: Bytes;
        if i == 0 {
          data := password;
          assert [] + password == password;
        } else {
          data := m[i - 1] + password;
        }
        assert md5(data) == ChainDigest(md5, password, i);
        m := m + [md5(data)];
        i := i + 1;
      }
      hide ChainDigest;
      var ms: Bytes := [];
      for k := 0 to |m|
        invariant ms == Chain(md5, password, k)
      {
        ms := ms + m[k];
      }
      key := Mid(ms, 0, keyLen);
      LongerChainSameKey(md5, password, keyLen, |m|);
    }
  }
}
