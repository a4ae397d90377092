/** Bytes, and their numeric values. */
module Bits {
  type Byte = bv8

  lemma XorTwice(x: Byte, y: Byte)
    ensures (x ^ y) ^ y == x
  {
  }

  // Values are counted up rather than converted: the verifier unfolds a count one step at a time.

  /** The value of a byte. */
  function Value(b: Byte): (n: nat)
    ensures n < 0x100
    decreases b as nat, 0
  {
    if b == 0 then 0
    else
      PreviousValue(b);
      ValueConverts(b - 1);
      Value(b - 1) + 1
  }

  /** n modulo 256 as a byte: adding wraps around. */
  function ToByte(n: nat): Byte {
    if n == 0 then 0 else ToByte(n - 1) + 1
  }

  lemma PreviousValue(b: Byte)
    requires b != 0
    ensures b as nat == (b - 1) as nat + 1 < 0x100
  {
  }

  lemma {:induction false} ValueConverts(b: Byte)
    ensures Value(b) == b as nat
    decreases b as nat, 1
  {
    if b != 0 {
      PreviousValue(b);
      ValueConverts(b - 1);
    }
  }

  lemma NextValue(b: Byte)
    ensures Value(b + 1) == if b == 0xff then 0 else Value(b) + 1
    ensures b == 0xff ==> Value(b) == 0xff
  {
    if b == 0xff {
      ValueConverts(0xff);
    } else {
      assert b + 1 - 1 == b;
    }
  }

  lemma SameValue(a: Byte, b: Byte)
    requires Value(a) == Value(b)
    ensures a == b
  {
    ValueConverts(a);
    ValueConverts(b);
    ConversionInjective(a);
    ConversionInjective(b);
  }

  lemma ConversionInjective(b: Byte)
    ensures b as nat < 0x100 && (b as nat) as bv8 == b
  {
  }

  lemma {:induction false} ValueOfByte(n: nat)
    ensures Value(ToByte(n)) == n % 0x100
  {
    if n != 0 {
      ValueOfByte(n - 1);
      NextValue(ToByte(n - 1));
    }
  }

  lemma ByteOfValue(n: nat, b: Byte)
    requires n % 0x100 == Value(b)
    ensures ToByte(n) == b
  {
    ValueOfByte(n);
    SameValue(ToByte(n), b);
  }
}

/** Byte strings, and the QByteArray and byte-order operations the program relies on. */
module ByteStrings {
  import opened Bits

  type Bytes = seq<Byte>

  datatype Option<+T> = None | Some(value: T)

  /** The byte string a list of reads or writes amounts to. */
  function Flatten(parts: seq<Bytes>): Bytes {
    if parts == [] then [] else parts[0] + Flatten(parts[1..])
  }

  lemma {:induction false} FlattenAppend(parts: seq<Bytes>, last: Bytes)
    ensures Flatten(parts + [last]) == Flatten(parts) + last
  {
    if parts == [] {
      assert parts + [last] == [last];
      assert Flatten([last]) == last + Flatten([]);
    } else {
      FlattenAppend(parts[1..], last);
      assert (parts + [last])[1..] == parts[1..] + [last];
    }
  }

  /** Reading one cell past the end of a QByteArray gives its terminator. */
  function At(s: Bytes, i: nat): Byte {
    if i < |s| then s[i] else 0
  }

  /** QByteArray::left for a non-negative count. */
  function Left(s: Bytes, n: nat): Bytes {
    if n <= |s| then s[..n] else s
  }

  /** QByteArray::mid(pos): everything from pos on. */
  function Drop(s: Bytes, pos: nat): Bytes {
    if pos <= |s| then s[pos..] else []
  }

  /** QByteArray::mid(pos, len): a negative length means up to the end. */
  function Mid(s: Bytes, pos: nat, len: int): Bytes {
    var rest := Drop(s, pos);
    if 0 <= len <= |rest| then rest[..len] else rest
  }

  /** n modulo 2^16 as two big-endian bytes. */
  function BE16(n: nat): (r: Bytes)
    ensures |r| == 2
  {
    [ToByte(n / 0x100), ToByte(n)]
  }

  function FromBE16(hi: Byte, lo: Byte): (n: nat)
    ensures n < 0x1_0000
  {
    Value(hi) * 0x100 + Value(lo)
  }

  lemma SplitMod(n: nat)
    ensures n / 0x100 % 0x100 * 0x100 + n % 0x100 == n % 0x1_0000
  {
  }

  lemma JoinSplit(h: nat, l: nat)
    requires h < 0x100 && l < 0x100
    ensures (h * 0x100 + l) / 0x100 % 0x100 == h && (h * 0x100 + l) % 0x100 == l
    ensures h * 0x100 + l < 0x1_0000
  {
  }

  lemma BE16Exact(n: nat)
    ensures FromBE16(BE16(n)[0], BE16(n)[1]) == n % 0x1_0000
  {
    ValueOfByte(n / 0x100);
    ValueOfByte(n);
    SplitMod(n);
  }

  lemma BE16OfValues(n: nat, hi: Byte, lo: Byte)
    requires n / 0x100 % 0x100 == Value(hi) && n % 0x100 == Value(lo)
    ensures BE16(n) == [hi, lo]
  {
    ByteOfValue(n / 0x100, hi);
    ByteOfValue(n, lo);
  }

  lemma FromBE16Exact(hi: Byte, lo: Byte)
    ensures BE16(FromBE16(hi, lo)) == [hi, lo]
  {
    hide Value, ToByte;
    JoinSplit(Value(hi), Value(lo));
    BE16OfValues(FromBE16(hi, lo), hi, lo);
  }

  /** n modulo 2^32 as four big-endian bytes. */
  function BE32(n: nat): Bytes {
    BE16(n / 0x1_0000) + BE16(n)
  }
}
