/**
 The ChaCha20 block function and its keystream as pure functions, after section 2 of RFC 8439,
 and the inverse of its rounds.
 */
module ChaChaSpec {
  import opened Bits
  import opened ByteStrings

  type Words = w: seq<bv32> | |w| == 16 witness seq(16, _ => 0)

  // ----- Word operations -----

  function Add(x: bv32, y: bv32): bv32 {
    x + y
  }

  function Sub(x: bv32, y: bv32): bv32 {
    x - y
  }

  function RotateLeft(x: bv32, k: bv32): bv32
    requires k <= 32
  {
    (x << k) | (x >> (32 - k))
  }

  function RotateRight(x: bv32, k: bv32): bv32
    requires k <= 32
  {
    (x >> k) | (x << (32 - k))
  }

  /** The xor-then-rotate half of a mixing step, and its inverse. */
  function Spin(x: bv32, y: bv32, k: bv32): bv32
    requires k <= 32
  {
    RotateLeft(x ^ y, k)
  }

  function Unspin(x: bv32, y: bv32, k: bv32): bv32
    requires k <= 32
  {
    RotateRight(x, k) ^ y
  }

  lemma AddOfSum(x: bv32, y: bv32)
    ensures Sub(x + y, y) == x && Add(x - y, y) == x
  {
  }

  lemma AddInverse(x: bv32, y: bv32)
    ensures Sub(Add(x, y), y) == x && Add(Sub(x, y), y) == x
  {
    AddOfSum(x, y);
  }

  lemma SpinInverse16(x: bv32, y: bv32)
    ensures Unspin(Spin(x, y, 16), y, 16) == x && Spin(Unspin(x, y, 16), y, 16) == x
  {
  }

  lemma SpinInverse12(x: bv32, y: bv32)
    ensures Unspin(Spin(x, y, 12), y, 12) == x && Spin(Unspin(x, y, 12), y, 12) == x
  {
  }

  lemma SpinInverse8(x: bv32, y: bv32)
    ensures Unspin(Spin(x, y, 8), y, 8) == x && Spin(Unspin(x, y, 8), y, 8) == x
  {
  }

  lemma SpinInverse7(x: bv32, y: bv32)
    ensures Unspin(Spin(x, y, 7), y, 7) == x && Spin(Unspin(x, y, 7), y, 7) == x
  {
  }

  // ----- The quarter round -----

  datatype Quad = Quad(a: bv32, b: bv32, c: bv32, d: bv32)

  // Four mixing steps, alternately through (a, d) and (c, b).

  function MixD(q: Quad, k: bv32): Quad
    requires k <= 32
  {
    var a := Add(q.a, q.b);
    Quad(a, q.b, q.c, Spin(q.d, a, k))
  }

  function MixB(q: Quad, k: bv32): Quad
    requires k <= 32
  {
    var c := Add(q.c, q.d);
    Quad(q.a, Spin(q.b, c, k), c, q.d)
  }

  function QuarterRound(q: Quad): Quad {
    MixB(MixD(MixB(MixD(q, 16), 12), 8), 7)
  }

  function UnmixD(q: Quad, k: bv32): Quad
    requires k <= 32
  {
    Quad(Sub(q.a, q.b), q.b, q.c, Unspin(q.d, q.a, k))
  }

  function UnmixB(q: Quad, k: bv32): Quad
    requires k <= 32
  {
    Quad(q.a, Unspin(q.b, q.c, k), Sub(q.c, q.d), q.d)
  }

  function InverseQuarterRound(q: Quad): Quad {
    UnmixD(UnmixB(UnmixD(UnmixB(q, 7), 8), 12), 16)
  }

  lemma MixDInverse16(q: Quad)
    ensures UnmixD(MixD(q, 16), 16) == q && MixD(UnmixD(q, 16), 16) == q
  {
    AddInverse(q.a, q.b);
    SpinInverse16(q.d, Add(q.a, q.b));
    SpinInverse16(q.d, q.a);
  }

  lemma MixDInverse8(q: Quad)
    ensures UnmixD(MixD(q, 8), 8) == q && MixD(UnmixD(q, 8), 8) == q
  {
    AddInverse(q.a, q.b);
    SpinInverse8(q.d, Add(q.a, q.b));
    SpinInverse8(q.d, q.a);
  }

  lemma MixBInverse12(q: Quad)
    ensures UnmixB(MixB(q, 12), 12) == q && MixB(UnmixB(q, 12), 12) == q
  {
    AddInverse(q.c, q.d);
    SpinInverse12(q.b, Add(q.c, q.d));
    SpinInverse12(q.b, q.c);
  }

  lemma MixBInverse7(q: Quad)
    ensures UnmixB(MixB(q, 7), 7) == q && MixB(UnmixB(q, 7), 7) == q
  {
    AddInverse(q.c, q.d);
    SpinInverse7(q.b, Add(q.c, q.d));
    SpinInverse7(q.b, q.c);
  }

  lemma QuarterRoundInverse(q: Quad)
    ensures InverseQuarterRound(QuarterRound(q)) == q
    ensures QuarterRound(InverseQuarterRound(q)) == q
  {
    var f := MixD(q, 16);  MixDInverse16(q);
    var g := MixB(f, 12);  MixBInverse12(f);
    var h := MixD(g, 8);   MixDInverse8(g);
    MixBInverse7(h);
    var u := UnmixB(q, 7);  MixBInverse7(q);
    var v := UnmixD(u, 8);  MixDInverse8(u);
    var w := UnmixB(v, 12); MixBInverse12(v);
    MixDInverse16(w);
  }

  /** The test vector of section 2.1.1 of RFC 8439. */
  lemma QuarterRoundVector()
    ensures QuarterRound(Quad(0x11111111, 0x01020304, 0x9b8d6f43, 0x01234567))
         == Quad(0xea2a92f4, 0xcb1cf8ce, 0x4581472e, 0x5881c4bb)
  {
  }

  // ----- Rounds over the sixteen words -----

  /** Four distinct word positions. */
  predicate Positions(i: nat, j: nat, k: nat, l: nat) {
    i < 16 && j < 16 && k < 16 && l < 16 && i != j && i != k && i != l && j != k && j != l && k != l
  }

  function Put(s: Words, i: nat, j: nat, k: nat, l: nat, q: Quad): Words
    requires Positions(i, j, k, l)
  {
    s[i := q.a][j := q.b][k := q.c][l := q.d]
  }

  function QuarterAt(s: Words, i: nat, j: nat, k: nat, l: nat): Words
    requires Positions(i, j, k, l)
  {
    Put(s, i, j, k, l, QuarterRound(Quad(s[i], s[j], s[k], s[l])))
  }

  function InverseQuarterAt(s: Words, i: nat, j: nat, k: nat, l: nat): Words
    requires Positions(i, j, k, l)
  {
    Put(s, i, j, k, l, InverseQuarterRound(Quad(s[i], s[j], s[k], s[l])))
  }

  lemma PutTwice(s: Words, i: nat, j: nat, k: nat, l: nat, q: Quad)
    requires Positions(i, j, k, l)
    ensures var t := Put(s, i, j, k, l, q);
            Quad(t[i], t[j], t[k], t[l]) == q
            && Put(t, i, j, k, l, Quad(s[i], s[j], s[k], s[l])) == s
  {
  }

  lemma QuarterAtInverse(s: Words, i: nat, j: nat, k: nat, l: nat)
    requires Positions(i, j, k, l)
    ensures InverseQuarterAt(QuarterAt(s, i, j, k, l), i, j, k, l) == s
    ensures QuarterAt(InverseQuarterAt(s, i, j, k, l), i, j, k, l) == s
  {
    var q := Quad(s[i], s[j], s[k], s[l]);
    QuarterRoundInverse(q);
    PutTwice(s, i, j, k, l, QuarterRound(q));
    PutTwice(s, i, j, k, l, InverseQuarterRound(q));
  }

  function ColumnRound(s: Words): Words {
    QuarterAt(QuarterAt(QuarterAt(QuarterAt(s, 0, 4, 8, 12), 1, 5, 9, 13), 2, 6, 10, 14), 3, 7, 11, 15)
  }

  function DiagonalRound(s: Words): Words {
    QuarterAt(QuarterAt(QuarterAt(QuarterAt(s, 0, 5, 10, 15), 1, 6, 11, 12), 2, 7, 8, 13), 3, 4, 9, 14)
  }

  function InverseColumnRound(s: Words): Words {
    InverseQuarterAt(InverseQuarterAt(InverseQuarterAt(InverseQuarterAt(s,
      3, 7, 11, 15), 2, 6, 10, 14), 1, 5, 9, 13), 0, 4, 8, 12)
  }

  function InverseDiagonalRound(s: Words): Words {
    InverseQuarterAt(InverseQuarterAt(InverseQuarterAt(InverseQuarterAt(s,
      3, 4, 9, 14), 2, 7, 8, 13), 1, 6, 11, 12), 0, 5, 10, 15)
  }

  lemma ColumnRoundInverse(s: Words)
    ensures InverseColumnRound(ColumnRound(s)) == s
    ensures ColumnRound(InverseColumnRound(s)) == s
  {
    var a := QuarterAt(s, 0, 4, 8, 12);  QuarterAtInverse(s, 0, 4, 8, 12);
    var b := QuarterAt(a, 1, 5, 9, 13);  QuarterAtInverse(a, 1, 5, 9, 13);
    var c := QuarterAt(b, 2, 6, 10, 14); QuarterAtInverse(b, 2, 6, 10, 14);
    QuarterAtInverse(c, 3, 7, 11, 15);
    var d := InverseQuarterAt(s, 3, 7, 11, 15); QuarterAtInverse(s, 3, 7, 11, 15);
    var e := InverseQuarterAt(d, 2, 6, 10, 14); QuarterAtInverse(d, 2, 6, 10, 14);
    var f := InverseQuarterAt(e, 1, 5, 9, 13);  QuarterAtInverse(e, 1, 5, 9, 13);
    QuarterAtInverse(f, 0, 4, 8, 12);
  }

  lemma DiagonalRoundInverse(s: Words)
    ensures InverseDiagonalRound(DiagonalRound(s)) == s
    ensures DiagonalRound(InverseDiagonalRound(s)) == s
  {
    var a := QuarterAt(s, 0, 5, 10, 15); QuarterAtInverse(s, 0, 5, 10, 15);
    var b := QuarterAt(a, 1, 6, 11, 12); QuarterAtInverse(a, 1, 6, 11, 12);
    var c := QuarterAt(b, 2, 7, 8, 13);  QuarterAtInverse(b, 2, 7, 8, 13);
    QuarterAtInverse(c, 3, 4, 9, 14);
    var d := InverseQuarterAt(s, 3, 4, 9, 14);  QuarterAtInverse(s, 3, 4, 9, 14);
    var e := InverseQuarterAt(d, 2, 7, 8, 13);  QuarterAtInverse(d, 2, 7, 8, 13);
    var f := InverseQuarterAt(e, 1, 6, 11, 12); QuarterAtInverse(e, 1, 6, 11, 12);
    QuarterAtInverse(f, 0, 5, 10, 15);
  }

  function DoubleRound(s: Words): Words {
    DiagonalRound(ColumnRound(s))
  }

  function InverseDoubleRound(s: Words): Words {
    InverseColumnRound(InverseDiagonalRound(s))
  }

  lemma DoubleRoundInverse(s: Words)
    ensures InverseDoubleRound(DoubleRound(s)) == s
    ensures DoubleRound(InverseDoubleRound(s)) == s
  {
    ColumnRoundInverse(s);
    DiagonalRoundInverse(ColumnRound(s));
    DiagonalRoundInverse(s);
    ColumnRoundInverse(InverseDiagonalRound(s));
  }

  function Iterate<T>(f: T -> T, n: nat, s: T): T {
    if n == 0 then s else f(Iterate(f, n - 1, s))
  }

  lemma {:induction false} IterateShift<T>(f: T -> T, n: nat, s: T)
    ensures Iterate(f, n + 1, s) == Iterate(f, n, f(s))
  {
    if n != 0 {
      IterateShift(f, n - 1, s);
    }
  }

  lemma {:induction false} IterateInverse<T(!new)>(f: T -> T, g: T -> T, n: nat, s: T)
    requires forall t :: g(f(t)) == t
    ensures Iterate(g, n, Iterate(f, n, s)) == s
  {
    if n != 0 {
      IterateShift(g, n - 1, Iterate(f, n, s));
      IterateInverse(f, g, n - 1, s);
    }
  }

  function DoubleRounds(n: nat, s: Words): Words {
    Iterate(DoubleRound, n, s)
  }

  function InverseDoubleRounds(n: nat, s: Words): Words {
    Iterate(InverseDoubleRound, n, s)
  }

  /** The rounds permute the sixteen-word states: the inverse undoes them on both sides. */
  lemma DoubleRoundsInverse(n: nat, s: Words)
    ensures InverseDoubleRounds(n, DoubleRounds(n, s)) == s
    ensures DoubleRounds(n, InverseDoubleRounds(n, s)) == s
  {
    forall t: Words
      ensures InverseDoubleRound(DoubleRound(t)) == t && DoubleRound(InverseDoubleRound(t)) == t
    {
      DoubleRoundInverse(t);
    }
    IterateInverse<Words>(DoubleRound, InverseDoubleRound, n, s);
    IterateInverse<Words>(InverseDoubleRound, DoubleRound, n, s);
  }

  // ----- The block function -----

  function AddWords(x: Words, y: Words): Words {
    seq(16, i requires 0 <= i < 16 => Add(x[i], y[i]))
  }

  /** Byte k of a word in little-endian order. */
  function WordByte(x: bv32, k: nat): Byte
    requires k < 4
  {
    if k == 0 then (x & 0xff) as bv8
    else if k == 1 then ((x >> 8) & 0xff) as bv8
    else if k == 2 then ((x >> 16) & 0xff) as bv8
    else ((x >> 24) & 0xff) as bv8
  }

  /** Word k of a byte string in little-endian order. */
  function LoadLE(s: Bytes, k: nat): bv32
    requires 4 * k + 4 <= |s|
  {
    (s[4 * k] as bv32) | ((s[4 * k + 1] as bv32) << 8)
    | ((s[4 * k + 2] as bv32) << 16) | ((s[4 * k + 3] as bv32) << 24)
  }

  type Block64 = b: Bytes | |b| == 64 witness seq(64, _ => 0)

  function Serialize(w: Words): Block64 {
    seq(64, i requires 0 <= i < 64 => WordByte(w[i / 4], i % 4))
  }

  function Block(w: Words): Block64 {
    Serialize(AddWords(DoubleRounds(10, w), w))
  }

  function LittleEndian(x: bv32): Bytes {
    [(x & 0xff) as bv8, ((x >> 8) & 0xff) as bv8, ((x >> 16) & 0xff) as bv8, ((x >> 24) & 0xff) as bv8]
  }

  lemma SerializeAt(s: Words, i: nat)
    requires i < 16
    ensures Serialize(s)[4 * i..4 * i + 4] == LittleEndian(s[i])
  {
    var part := Serialize(s)[4 * i..4 * i + 4];
    forall k | 0 <= k < 4
      ensures part[k] == WordByte(s[i], k)
    {
      assert (4 * i + k) / 4 == i && (4 * i + k) % 4 == k;
    }
    assert part[0] == WordByte(s[i], 0) && part[1] == WordByte(s[i], 1);
    assert part[2] == WordByte(s[i], 2) && part[3] == WordByte(s[i], 3);
  }

  /** Word by word, the block is the sums of the words after twenty rounds and the input words. */
  lemma BlockBytes(w: Words, i: nat)
    requires i < 16
    ensures Block(w)[4 * i..4 * i + 4] == LittleEndian(DoubleRounds(10, w)[i] + w[i])
  {
    hide DoubleRounds, Serialize, LittleEndian;
    SerializeAt(AddWords(DoubleRounds(10, w), w), i);
  }

  lemma WordOfBlock(w: Words, i: nat)
    requires i < 16
    ensures Block(w)[4 * i..4 * i + 4] == LittleEndian(Add(DoubleRounds(10, w)[i], w[i]))
  {
    hide DoubleRounds, Block, LittleEndian;
    BlockBytes(w, i);
  }

  // ----- The state: constants, key, 64-bit counter, nonce -----

  predicate ValidKey(key: Bytes) {
    |key| == 32
  }

  predicate ValidIV(iv: Bytes) {
    |iv| == 8 || |iv| == 12
  }

  /** Where the counter in words 12 and 13 starts: a 12-byte IV lends its first word to the upper half. */
  function CounterStart(iv: Bytes): bv64
    requires ValidIV(iv)
  {
    if |iv| == 12 then (LoadLE(iv, 0) as bv64) << 32 else 0
  }

  function CounterAt(start: bv64, n: nat): bv64 {
    if n == 0 then start else CounterAt(start, n - 1) + 1
  }

  function Low(c: bv64): bv32 {
    (c & 0xffff_ffff) as bv32
  }

  function High(c: bv64): bv32 {
    (c >> 32) as bv32
  }

  function WordsOf(key: Bytes, counter: bv64, n0: bv32, n1: bv32): Words
    requires ValidKey(key)
  {
    [0x61707865, 0x3320646e, 0x79622d32, 0x6b206574,
     LoadLE(key, 0), LoadLE(key, 1), LoadLE(key, 2), LoadLE(key, 3),
     LoadLE(key, 4), LoadLE(key, 5), LoadLE(key, 6), LoadLE(key, 7),
     Low(counter), High(counter), n0, n1]
  }

  /** The state that produces block n. */
  function StateAt(key: Bytes, iv: Bytes, n: nat): Words
    requires ValidKey(key) && ValidIV(iv)
  {
    var shift := if |iv| == 12 then 1 else 0;
    WordsOf(key, CounterAt(CounterStart(iv), n), LoadLE(iv, shift), LoadLE(iv, shift + 1))
  }

  lemma CounterStartParts(iv: Bytes)
    requires ValidIV(iv)
    ensures Low(CounterStart(iv)) == 0
    ensures High(CounterStart(iv)) == if |iv| == 12 then LoadLE(iv, 0) else 0
  {
    if |iv| == 12 {
      ShiftedParts(LoadLE(iv, 0));
    } else {
      assert CounterStart(iv) == 0;
    }
  }

  lemma ZeroParts()
    ensures Low(0) == 0 && High(0) == 0
  {
  }

  lemma ShiftedParts(w: bv32)
    ensures Low((w as bv64) << 32) == 0 && High((w as bv64) << 32) == w
  {
  }

  /** Incrementing word 12 and carrying into word 13 adds one to the 64-bit counter. */
  lemma CounterCarry(c: bv64)
    ensures Low(c + 1) == Add(Low(c), 1)
    ensures High(c + 1) == if Low(c + 1) == 0 then Add(High(c), 1) else High(c)
  {
  }

  /** The state after one block: only the counter words change. */
  function Increment(s: Words): Words {
    var c := Add(s[12], 1);
    s[12 := c][13 := if c == 0 then Add(s[13], 1) else s[13]]
  }

  lemma IncrementCounter(key: Bytes, c: bv64, n0: bv32, n1: bv32)
    requires ValidKey(key)
    ensures Increment(WordsOf(key, c, n0, n1)) == WordsOf(key, c + 1, n0, n1)
  {
    hide LoadLE, Low, High, Add;
    CounterCarry(c);
  }

  lemma StateAdvances(key: Bytes, iv: Bytes, n: nat)
    requires ValidKey(key) && ValidIV(iv)
    ensures StateAt(key, iv, n + 1) == Increment(StateAt(key, iv, n))
  {
    hide LoadLE, CounterStart, WordsOf, Increment;
    var shift := if |iv| == 12 then 1 else 0;
    IncrementCounter(key, CounterAt(CounterStart(iv), n), LoadLE(iv, shift), LoadLE(iv, shift + 1));
  }

  // ----- The counter as a number -----

  /** The value of a word, from its four bytes. */
  function Number(x: bv32): nat {
    Value(WordByte(x, 0)) + 0x100 * Value(WordByte(x, 1))
    + 0x1_0000 * Value(WordByte(x, 2)) + 0x100_0000 * Value(WordByte(x, 3))
  }

  lemma NumberBound(x: bv32)
    ensures Number(x) < 0x1_0000_0000
  {
    hide Value, WordByte;
  }

  /** Adding one to a word adds one to its lowest byte that is not 0xff and clears those below. */
  lemma BytesOfNext(x: bv32)
    ensures var y := Add(x, 1);
      if WordByte(x, 0) != 0xff then
        WordByte(y, 0) == WordByte(x, 0) + 1 && WordByte(y, 1) == WordByte(x, 1)
        && WordByte(y, 2) == WordByte(x, 2) && WordByte(y, 3) == WordByte(x, 3) && y != 0
      else if WordByte(x, 1) != 0xff then
        WordByte(y, 0) == 0 && WordByte(y, 1) == WordByte(x, 1) + 1
        && WordByte(y, 2) == WordByte(x, 2) && WordByte(y, 3) == WordByte(x, 3) && y != 0
      else if WordByte(x, 2) != 0xff then
        WordByte(y, 0) == 0 && WordByte(y, 1) == 0
        && WordByte(y, 2) == WordByte(x, 2) + 1 && WordByte(y, 3) == WordByte(x, 3) && y != 0
      else if WordByte(x, 3) != 0xff then
        WordByte(y, 0) == 0 && WordByte(y, 1) == 0
        && WordByte(y, 2) == 0 && WordByte(y, 3) == WordByte(x, 3) + 1 && y != 0
      else y == 0
  {
  }

  lemma NumberNext(x: bv32)
    ensures Number(Add(x, 1)) == if Add(x, 1) == 0 then 0 else Number(x) + 1
    ensures Add(x, 1) == 0 ==> Number(x) == 0xffff_ffff
  {
    hide Value, WordByte, Add;
    BytesOfNext(x);
    ZeroNumber();
    ZeroValue();
    NextValue(WordByte(x, 0));
    NextValue(WordByte(x, 1));
    NextValue(WordByte(x, 2));
    NextValue(WordByte(x, 3));
  }

  lemma ZeroValue()
    ensures Value(0) == 0
  {
  }

  lemma SameBytes(x: bv32, y: bv32)
    requires forall k :: 0 <= k < 4 ==> WordByte(x, k) == WordByte(y, k)
    ensures x == y
  {
    assert WordByte(x, 0) == WordByte(y, 0) && WordByte(x, 1) == WordByte(y, 1);
    assert WordByte(x, 2) == WordByte(y, 2) && WordByte(x, 3) == WordByte(y, 3);
  }

  lemma SameDigits(a: nat, b: nat, c: nat, d: nat, a': nat, b': nat, c': nat, d': nat)
    requires a < 0x100 && b < 0x100 && c < 0x100 && a' < 0x100 && b' < 0x100 && c' < 0x100
    requires a + 0x100 * b + 0x1_0000 * c + 0x100_0000 * d == a' + 0x100 * b' + 0x1_0000 * c' + 0x100_0000 * d'
    ensures a == a' && b == b' && c == c' && d == d'
  {
  }

  lemma NumberInjective(x: bv32, y: bv32)
    requires Number(x) == Number(y)
    ensures x == y
  {
    hide Value, WordByte;
    SameDigits(Value(WordByte(x, 0)), Value(WordByte(x, 1)), Value(WordByte(x, 2)), Value(WordByte(x, 3)),
               Value(WordByte(y, 0)), Value(WordByte(y, 1)), Value(WordByte(y, 2)), Value(WordByte(y, 3)));
    SameValue(WordByte(x, 0), WordByte(y, 0));
    SameValue(WordByte(x, 1), WordByte(y, 1));
    SameValue(WordByte(x, 2), WordByte(y, 2));
    SameValue(WordByte(x, 3), WordByte(y, 3));
    SameBytes(x, y);
  }

  /** The 64-bit number held in words 12 (low) and 13 (high). */
  function CounterNumber(c: bv64): nat {
    Number(Low(c)) + 0x1_0000_0000 * Number(High(c))
  }

  lemma CounterNext(c: bv64)
    ensures CounterNumber(c + 1) == (CounterNumber(c) + 1) % 0x1_0000_0000_0000_0000
  {
    hide Number, Low, High, Add;
    CounterCarry(c);
    NumberBound(Low(c));
    NumberBound(High(c));
    NumberNext(Low(c));
    NumberNext(High(c));
    NumberBound(Low(c + 1));
    NumberBound(High(c + 1));
    var l, h := Number(Low(c)), Number(High(c));
    if Add(Low(c), 1) != 0 {
      assert Number(Low(c + 1)) == l + 1 && High(c + 1) == High(c);
    } else if Add(High(c), 1) != 0 {
      assert Number(Low(c + 1)) == 0 && Number(High(c + 1)) == h + 1;
    } else {
      assert Number(Low(c + 1)) == 0 && Number(High(c + 1)) == 0;
    }
  }

  lemma CounterBound(c: bv64)
    ensures CounterNumber(c) < 0x1_0000_0000_0000_0000
  {
    hide Number;
    NumberBound(Low(c));
    NumberBound(High(c));
  }

  lemma ModNext(a: nat)
    ensures (a % 0x1_0000_0000_0000_0000 + 1) % 0x1_0000_0000_0000_0000 == (a + 1) % 0x1_0000_0000_0000_0000
  {
  }

  /** Block n is taken at the starting counter plus n, modulo 2^64. */
  lemma {:induction false} CounterExact(start: bv64, n: nat)
    ensures CounterNumber(CounterAt(start, n))
         == (CounterNumber(start) + n) % 0x1_0000_0000_0000_0000
  {
    hide CounterNumber;
    if n == 0 {
      CounterBound(start);
    } else {
      CounterExact(start, n - 1);
      CounterNext(CounterAt(start, n - 1));
      ModNext(CounterNumber(start) + n - 1);
    }
  }

  /** The state of section 2.3 of RFC 8439: a 32-bit block counter and a 96-bit nonce. */
  function RfcState(key: Bytes, counter: bv32, nonce: Bytes): Words
    requires ValidKey(key) && |nonce| == 12
  {
    [0x61707865, 0x3320646e, 0x79622d32, 0x6b206574,
     LoadLE(key, 0), LoadLE(key, 1), LoadLE(key, 2), LoadLE(key, 3),
     LoadLE(key, 4), LoadLE(key, 5), LoadLE(key, 6), LoadLE(key, 7),
     counter, LoadLE(nonce, 0), LoadLE(nonce, 1), LoadLE(nonce, 2)]
  }

  lemma ZeroNumber()
    ensures Number(0) == 0
  {
    assert WordByte(0, 0) == 0 && WordByte(0, 1) == 0 && WordByte(0, 2) == 0 && WordByte(0, 3) == 0;
  }

  /**
   With a 12-byte IV, block n is the block of section 2.3 of RFC 8439 for some counter exactly while
   the carry has not reached word 13, which happens first at block 2^32; until then the counter is n.
   */
  lemma RfcAgreement(key: Bytes, iv: Bytes, n: nat, c: bv32)
    requires ValidKey(key) && |iv| == 12
    ensures StateAt(key, iv, n) == RfcState(key, c, iv)
       <==> Number(c) == n % 0x1_0000_0000_0000_0000
  {
    hide Number, Low, High, LoadLE, CounterStart;
    var start, w := CounterStart(iv), LoadLE(iv, 0);
    var d := CounterAt(start, n);
    CounterStartParts(iv);
    ZeroNumber();
    CounterExact(start, n);
    NumberBound(w);
    NumberBound(c);
    NumberBound(Low(d));
    NumberBound(High(d));
    if Number(High(d)) == Number(w) {
      NumberInjective(High(d), w);
    }
    if Number(Low(d)) == Number(c) {
      NumberInjective(Low(d), c);
    }
    RfcArithmetic(Number(w), Number(Low(d)), Number(High(d)), n);
    assert StateAt(key, iv, n)[12] == Low(d) && StateAt(key, iv, n)[13] == High(d);
    assert RfcState(key, c, iv)[12] == c && RfcState(key, c, iv)[13] == w;
    if Low(d) == c && High(d) == w {
      assert StateAt(key, iv, n) == RfcState(key, c, iv);
    }
  }

  lemma FirstBlocks(key: Bytes, iv: Bytes, n: nat) returns (c: bv32)
    requires ValidKey(key) && |iv| == 12 && n < 0x1_0000_0000
    ensures Number(c) == n && StateAt(key, iv, n) == RfcState(key, c, iv)
  {
    hide Number, Low, High, LoadLE, CounterStart, RfcState, StateAt;
    var d := CounterAt(CounterStart(iv), n);
    c := Low(d);
    CounterStartParts(iv);
    ZeroNumber();
    CounterExact(CounterStart(iv), n);
    NumberBound(LoadLE(iv, 0));
    NumberBound(c);
    NumberBound(High(d));
    RfcArithmetic(Number(LoadLE(iv, 0)), Number(c), Number(High(d)), n);
    RfcAgreement(key, iv, n, c);
  }

  /** So the first 2^32 blocks of keystream are those of section 2.4 of RFC 8439 with initial counter 0. */
  lemma RfcKeystream(key: Bytes, iv: Bytes, n: nat) returns (c: bv32)
    requires ValidKey(key) && |iv| == 12 && n / 64 < 0x1_0000_0000
    ensures Number(c) == n / 64
    ensures KeystreamByte(key, iv, n) == Block(RfcState(key, c, iv))[n % 64]
  {
    hide Number, LoadLE, Block, RfcState, StateAt;
    c := FirstBlocks(key, iv, n / 64);
  }

  lemma RfcArithmetic(w: nat, lo: nat, hi: nat, n: nat)
    requires w < 0x1_0000_0000 && lo < 0x1_0000_0000 && hi < 0x1_0000_0000
    requires lo + 0x1_0000_0000 * hi == (0x1_0000_0000 * w + n) % 0x1_0000_0000_0000_0000
    ensures hi == w <==> n % 0x1_0000_0000_0000_0000 < 0x1_0000_0000
    ensures hi == w ==> lo == n % 0x1_0000_0000_0000_0000
  {
  }

  // ----- The keystream -----

  function KeystreamByte(key: Bytes, iv: Bytes, n: nat): Byte
    requires ValidKey(key) && ValidIV(iv)
  {
    Block(StateAt(key, iv, n / 64))[n % 64]
  }

  /** data under the keystream bytes from position off on. */
  function XorStream(key: Bytes, iv: Bytes, off: nat, data: Bytes): (r: Bytes)
    requires ValidKey(key) && ValidIV(iv)
    ensures |r| == |data|
  {
    seq(|data|, i requires 0 <= i < |data| => data[i] ^ KeystreamByte(key, iv, off + i))
  }

  /**
   With a 12-byte IV, each byte of the first 2^32 blocks is masked with the byte of section 2.4 of RFC 8439:
   that of the sum of the state of section 2.3 and what twenty rounds make of it.
   */
  lemma RfcStream(key: Bytes, iv: Bytes, off: nat, data: Bytes, i: nat) returns (c: bv32)
    requires ValidKey(key) && |iv| == 12 && i < |data| && (off + i) / 64 < 0x1_0000_0000
    ensures Number(c) == (off + i) / 64
    ensures var s, n := RfcState(key, c, iv), (off + i) % 64;
      XorStream(key, iv, off, data)[i] == data[i] ^ LittleEndian(Add(DoubleRounds(10, s)[n / 4], s[n / 4]))[n % 4]
  {
    hide Number, Block, RfcState, KeystreamByte, LittleEndian, DoubleRounds, Add;
    c := RfcKeystream(key, iv, off + i);
    var s, n := RfcState(key, c, iv), (off + i) % 64;
    WordOfBlock(s, n / 4);
    assert Block(s)[n] == Block(s)[4 * (n / 4)..4 * (n / 4) + 4][n % 4];
  }

  /** With an 8-byte IV the state has a 64-bit block counter, which starts at 0, and the IV as its last two words. */
  lemma ShortIVState(key: Bytes, iv: Bytes, n: nat) returns (lo: bv32, hi: bv32)
    requires ValidKey(key) && |iv| == 8
    ensures Number(lo) + 0x1_0000_0000 * Number(hi) == n % 0x1_0000_0000_0000_0000
    ensures StateAt(key, iv, n) ==
      [0x61707865, 0x3320646e, 0x79622d32, 0x6b206574,
       LoadLE(key, 0), LoadLE(key, 1), LoadLE(key, 2), LoadLE(key, 3),
       LoadLE(key, 4), LoadLE(key, 5), LoadLE(key, 6), LoadLE(key, 7),
       lo, hi, LoadLE(iv, 0), LoadLE(iv, 1)]
  {
    hide Number, Low, High, LoadLE, CounterStart;
    var d := CounterAt(CounterStart(iv), n);
    lo, hi := Low(d), High(d);
    CounterStartParts(iv);
    ZeroNumber();
    CounterExact(CounterStart(iv), n);
  }

  lemma XorStreamSplit(key: Bytes, iv: Bytes, off: nat, a: Bytes, b: Bytes)
    requires ValidKey(key) && ValidIV(iv)
    ensures XorStream(key, iv, off, a + b) == XorStream(key, iv, off, a) + XorStream(key, iv, off + |a|, b)
  {
    var l := XorStream(key, iv, off, a + b);
    var r := XorStream(key, iv, off, a) + XorStream(key, iv, off + |a|, b);
    forall i | 0 <= i < |l|
      ensures l[i] == r[i]
    {
      if |a| <= i {
        assert off + i == off + |a| + (i - |a|);
      }
    }
  }

  lemma XorStreamInvolution(key: Bytes, iv: Bytes, off: nat, data: Bytes)
    requires ValidKey(key) && ValidIV(iv)
    ensures XorStream(key, iv, off, XorStream(key, iv, off, data)) == data
  {
    hide KeystreamByte;
    var l := XorStream(key, iv, off, XorStream(key, iv, off, data));
    forall i | 0 <= i < |data|
      ensures l[i] == data[i]
    {
      XorTwice(data[i], KeystreamByte(key, iv, off + i));
    }
  }
}
