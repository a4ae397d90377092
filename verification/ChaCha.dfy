/** The streaming ChaCha engine: a state, a 64-byte buffer and a position in it. */
module ChaChaEngine {
  import opened Bits
  import opened ByteStrings
  import opened ChaChaSpec

  /**
   The byte-wise exclusive or of Common. The loop tests its condition last, so that a length of zero
   still writes one cell.
   */
  method ExclusiveOr(ks: array<Byte>, ksPos: nat, src: Bytes, srcPos: nat,
                     dst: array<Byte>, dstPos: nat, length: nat)
    requires ksPos + length <= ks.Length && ksPos < ks.Length
    requires srcPos + length <= |src| && srcPos < |src|
    requires dstPos + length <= dst.Length && dstPos < dst.Length
    requires ks != dst
    modifies dst
    ensures forall i :: 0 <= i < dst.Length ==>
      dst[i] == if dstPos <= i < dstPos + (if length == 0 then 1 else length)
                then src[srcPos + (i - dstPos)] ^ ks[ksPos + (i - dstPos)]
                else old(dst[i])
  {
    dst[dstPos] := src[srcPos] ^ ks[ksPos];
    var k := 1;
    while k < length
      invariant 1 <= k && (k <= length || k == 1)
      invariant forall i :: 0 <= i < dst.Length ==>
        dst[i] == if dstPos <= i < dstPos + k
                  then src[srcPos + (i - dstPos)] ^ ks[ksPos + (i - dstPos)]
                  else old(dst[i])
    {
      dst[dstPos + k] := src[srcPos + k] ^ ks[ksPos + k];
      k := k + 1;
    }
  }

  /** One quarter round in place on four of the sixteen words. */
  method QuarterRoundInPlace(x: array<bv32>, i: nat, j: nat, k: nat, l: nat)
    requires x.Length == 16 && Positions(i, j, k, l)
    modifies x
    ensures x[..] == QuarterAt(old(x[..]), i, j, k, l)
  {
    hide Add, Spin;
    var a, b, c, d := x[i], x[j], x[k], x[l];
    ghost var q := Quad(a, b, c, d);
    a := Add(a, b); d := Spin(d, a, 16);
    c := Add(c, d); b := Spin(b, c, 12);
    a := Add(a, b); d := Spin(d, a, 8);
    c := Add(c, d); b := Spin(b, c, 7);
    assert Quad(a, b, c, d) == QuarterRound(q);
    x[i], x[j], x[k], x[l] := a, b, c, d;
  }

  /** Stores one word in little-endian order. */
  method StoreLE(w: bv32, output: array<Byte>, k: nat)
    requires 4 * k + 4 <= output.Length
    modifies output
    ensures forall i :: 0 <= i < output.Length ==>
      output[i] == if i / 4 == k then WordByte(w, i % 4) else old(output[i])
  {
    output[4 * k] := WordByte(w, 0);
    output[4 * k + 1] := WordByte(w, 1);
    output[4 * k + 2] := WordByte(w, 2);
    output[4 * k + 3] := WordByte(w, 3);
  }

  class ChaCha {
    const state: array<bv32>
    const buffer: array<Byte>
    var position: nat

    const key: Bytes
    const iv: Bytes
    /** The number of the block in the buffer. */
    ghost var block: nat

    ghost function Repr(): set<object> {
      {this, state, buffer}
    }

    /** The buffer holds block number `block`, and the state is one block ahead of it. */
    ghost predicate Valid()
      reads this, state, buffer
    {
      && ValidKey(key) && ValidIV(iv)
      && state.Length == 16 && buffer.Length == 64
      && position < 64
      && state[..] == StateAt(key, iv, block + 1)
      && buffer[..] == Block(StateAt(key, iv, block))
    }

    /** Keystream bytes used so far. */
    ghost function Consumed(): nat
      reads this
    {
      64 * block + position
    }

    constructor (key: Bytes, iv: Bytes)
      requires ValidKey(key) && ValidIV(iv)
      ensures Valid() && fresh(Repr())
      ensures this.key == key && this.iv == iv
      ensures Consumed() == 0
    {
      hide WordsOf, StateAt, Block;
      this.key := key;
      this.iv := iv;
      state := new bv32[16](_ => 0);
      buffer := new Byte[64];
      position := 0;
      block := 0;
      new;
      StoreKey(state, key);
      SetIV();
    }

    /** Counter and nonce words from the IV, then the first block. */
    method SetIV()
      requires ValidKey(key) && ValidIV(iv)
      requires state.Length == 16 && buffer.Length == 64
      requires state[..] == WordsOf(key, 0, 0, 0)
      modifies this, state, buffer
      ensures Valid() && Consumed() == 0
    {
      hide WordsOf, StateAt, Block;
      StoreIV(state, key, iv);
      NextBlock(0);
    }

    /** Fills the buffer with the block the state stands for and moves the state one block on. */
    method NextBlock(ghost n: nat)
      requires ValidKey(key) && ValidIV(iv)
      requires state.Length == 16 && buffer.Length == 64
      requires state[..] == StateAt(key, iv, n)
      modifies this, state, buffer
      ensures Valid()
      ensures block == n && position == 0
    {
      hide Block, StateAt, Increment;
      FillBlock(state, buffer);
      StateAdvances(key, iv, n);
      StepCounter(state);
      position := 0;
      block := n;
    }

    /** The input under the next |input| keystream bytes. */
    method Update(input: Bytes) returns (output: Bytes)
      requires Valid()
      modifies this, state, buffer
      ensures Valid()
      ensures Consumed() == old(Consumed()) + |input|
      ensures output == XorStream(key, iv, old(Consumed()), input)
    {
      hide Block, StateAt, ValidKey, ValidIV, KeystreamByte;
      // Both byte arrays end in a terminator cell, which a final step of length zero touches.
      var src := input + [0];
      var dst := new Byte[|input| + 1];
      var done, length := 0, |input|;
      ghost var start := Consumed();
      var delta := 64 - position;
      while length >= delta
        invariant Valid() && delta == 64 - position
        invariant 0 <= done && 0 <= length && done + length == |input|
        invariant Consumed() == start + done
        invariant forall i :: 0 <= i < done ==> dst[i] == input[i] ^ KeystreamByte(key, iv, start + i)
        decreases length
      {
        ExclusiveOr(buffer, position, src, done, dst, done, delta);
        BufferIsKeystream();
        length := length - delta;
        done := done + delta;
        NextBlock(block + 1);
        delta := 64 - position;
      }
      ExclusiveOr(buffer, position, src, done, dst, done, length);
      BufferIsKeystream();
      position := position + length;
      output := dst[..|input|];
      assert forall i :: 0 <= i < |input| ==> output[i] == input[i] ^ KeystreamByte(key, iv, start + i);
    }

    /** Buffer cell i is the keystream byte at the block's offset plus i. */
    lemma BufferIsKeystream()
      requires Valid()
      ensures forall i :: position <= i < 64 ==>
        buffer[i] == KeystreamByte(key, iv, Consumed() + (i - position))
    {
      hide Block, StateAt;
      forall i | position <= i < 64
        ensures buffer[i] == KeystreamByte(key, iv, Consumed() + (i - position))
      {
        var n := Consumed() + (i - position);
        assert n == 64 * block + i;
        assert n / 64 == block && n % 64 == i;
        assert buffer[i] == buffer[..][i];
      }
    }
  }

  /** Ten double rounds in place. */
  method TenDoubleRounds(x: array<bv32>)
    requires x.Length == 16
    modifies x
    ensures x[..] == DoubleRounds(10, old(x[..]))
  {
    hide QuarterAt;
    ghost var s := x[..];
    for r := 0 to 10
      invariant x[..] == DoubleRounds(r, s)
    {
      QuarterRoundInPlace(x, 0, 4, 8, 12);
      QuarterRoundInPlace(x, 1, 5, 9, 13);
      QuarterRoundInPlace(x, 2, 6, 10, 14);
      QuarterRoundInPlace(x, 3, 7, 11, 15);

      QuarterRoundInPlace(x, 0, 5, 10, 15);
      QuarterRoundInPlace(x, 1, 6, 11, 12);
      QuarterRoundInPlace(x, 2, 7, 8, 13);
      QuarterRoundInPlace(x, 3, 4, 9, 14);
    }
  }

  /** Adds the input words and stores the sums as sixty-four bytes. */
  method AddAndStore(x: array<bv32>, input: array<bv32>, output: array<Byte>)
    requires x.Length == 16 && input.Length == 16 && output.Length == 64
    modifies output
    ensures output[..] == Serialize(AddWords(x[..], input[..]))
  {
    hide Add, WordByte;
    for k := 0 to 16
      invariant forall i :: 0 <= i < 4 * k ==> output[i] == WordByte(Add(x[i / 4], input[i / 4]), i % 4)
    {
      StoreLE(Add(x[k], input[k]), output, k);
    }
  }

  /** The block of an input state, through a working copy of its words. */
  method FillBlock(input: array<bv32>, output: array<Byte>)
    requires input.Length == 16 && output.Length == 64
    modifies output
    ensures output[..] == Block(input[..])
  {
    hide DoubleRound, Serialize, AddWords;
    var x := new bv32[16](i requires 0 <= i < 16 reads input => input[i]);
    assert x[..] == input[..];
    TenDoubleRounds(x);
    AddAndStore(x, input, output);
  }

  /** Steps the counter in words 12 and 13. */
  method StepCounter(state: array<bv32>)
    requires state.Length == 16
    modifies state
    ensures state[..] == Increment(old(state[..]))
  {
    hide Add;
    state[12] := Add(state[12], 1);
    if state[12] == 0 {
      state[13] := Add(state[13], 1);
    }
  }

  lemma SixteenWords(x: array<bv32>)
    requires x.Length == 16
    ensures x[..] == [x[0], x[1], x[2], x[3], x[4], x[5], x[6], x[7],
                      x[8], x[9], x[10], x[11], x[12], x[13], x[14], x[15]]
  {
  }

  /** The constant and key words. */
  method StoreKey(state: array<bv32>, key: Bytes)
    requires ValidKey(key) && state.Length == 16
    requires state[12] == 0 && state[13] == 0 && state[14] == 0 && state[15] == 0
    modifies state
    ensures state[..] == WordsOf(key, 0, 0, 0)
  {
    hide LoadLE, Low, High;
    ZeroParts();
    state[0] := 0x61707865;
    state[1] := 0x3320646e;
    state[2] := 0x79622d32;
    state[3] := 0x6b206574;

    state[4] := LoadLE(key, 0);
    state[5] := LoadLE(key, 1);
    state[6] := LoadLE(key, 2);
    state[7] := LoadLE(key, 3);
    state[8] := LoadLE(key, 4);
    state[9] := LoadLE(key, 5);
    state[10] := LoadLE(key, 6);
    state[11] := LoadLE(key, 7);
    SixteenWords(state);
  }

  /** The words the IV contributes, as they are written. */
  method StoreIV(state: array<bv32>, ghost key: Bytes, iv: Bytes)
    requires ValidKey(key) && ValidIV(iv) && state.Length == 16
    requires state[..] == WordsOf(key, 0, 0, 0)
    modifies state
    ensures state[..] == StateAt(key, iv, 0)
  {
    hide LoadLE, Low, High, CounterStart;
    CounterStartParts(iv);
    state[12] := 0;
    state[13] := 0;
    if |iv| == 8 {
      state[14] := LoadLE(iv, 0);
      state[15] := LoadLE(iv, 1);
    } else {
      state[13] := LoadLE(iv, 0);
      state[14] := LoadLE(iv, 1);
      state[15] := LoadLE(iv, 2);
    }
  }
}
