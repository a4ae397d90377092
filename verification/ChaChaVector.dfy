/** The block test vector of section 2.3.2 of RFC 8439, from the key's bytes to the keystream. */
module ChaChaVector {
  import opened Bits
  import opened ByteStrings
  import opened ChaChaSpec

  const KEY: Bytes :=
    [0, 1, 2, 3, 4, 5, 6, 7, 8, 9, 10, 11, 12, 13, 14, 15,
     16, 17, 18, 19, 20, 21, 22, 23, 24, 25, 26, 27, 28, 29, 30, 31]

  const NONCE: Bytes := [0, 0, 0, 9, 0, 0, 0, 0x4a, 0, 0, 0, 0]

  // The state before the first double round and after each of the ten.

  const STATE0: Words :=
    [0x61707865, 0x3320646e, 0x79622d32, 0x6b206574,
     0x03020100, 0x07060504, 0x0b0a0908, 0x0f0e0d0c,
     0x13121110, 0x17161514, 0x1b1a1918, 0x1f1e1d1c,
     0x00000001, 0x09000000, 0x4a000000, 0x00000000]

  const STATE1: Words :=
    [0xcd52e917, 0x85ab03b4, 0xb3457395, 0xf96de7dd,
     0xc4b7cd22, 0x5c2e187a, 0xc95eb461, 0x316c801a,
     0x7bf7d740, 0x7eddd644, 0xf1a1bdf5, 0x761246ca,
     0x6b0d58a3, 0x6798471a, 0xd737f167, 0xf173888d]

  const STATE2: Words :=
    [0xcf1a7584, 0x048927ec, 0x54051fda, 0xc244ff28,
     0x901d2f40, 0x7974b81c, 0x378dcfb4, 0xcd47fd0e,
     0x2dafb216, 0x27c89cd6, 0xcd3c9aa0, 0x79fc89c7,
     0x10aef18d, 0x16218765, 0x68f76705, 0x04d6ee22]

  const STATE3: Words :=
    [0x03a14032, 0x66b15927, 0x9d6b6b42, 0xb84c4109,
     0xa7143ae0, 0xa09b33dd, 0xa5daaf88, 0x2fd91a73,
     0xc90c6b18, 0x5a202413, 0xc20e01b6, 0x72cd6b74,
     0xba35d777, 0xb360f1bf, 0x8178315b, 0x2cd11b1a]

  const STATE4: Words :=
    [0x9a2d3589, 0x0b23fc4e, 0x40af3b6b, 0xceea8144,
     0x0a1bffc6, 0x5e5993f7, 0x9904c2e7, 0x0d334718,
     0xe46c6354, 0xc9503229, 0x04fef5aa, 0xf8933f72,
     0x2687d476, 0x54e65231, 0x3594ffc5, 0x2b3bb2ca]

  const STATE5: Words :=
    [0xc53318c5, 0xca325d96, 0x7e7d11cb, 0x3404e2ca,
     0x26d7cf73, 0x6088d379, 0xc0f0e9bd, 0xe310cdb9,
     0xae2ca8db, 0x42f67c72, 0x71669aca, 0x975c171d,
     0x9e5ec228, 0x7d85a9f3, 0x201d0756, 0x63fa6953]

  const STATE6: Words :=
    [0x04a3131a, 0x66176309, 0x0415bab1, 0x61b880a2,
     0x36cc86c7, 0xbf8a4465, 0xf77dd720, 0xfc0bdc90,
     0x07d13aca, 0xeb0be9af, 0x61599491, 0x918512dc,
     0x33b6686d, 0x795cc671, 0xc0049972, 0xa0a81bde]

  const STATE7: Words :=
    [0x9b70f51f, 0x7ea8ac11, 0x21e54da9, 0xca393b2f,
     0x93b08686, 0x6a4c50ae, 0x19212a5a, 0x9b032958,
     0xd839165e, 0x4c06e28a, 0xd3fde99e, 0x26acc13d,
     0xa609f555, 0x2c246549, 0x95151853, 0x2c847a0d]

  const STATE8: Words :=
    [0xca5c85dd, 0x93a4f90e, 0xd9f0df58, 0x26dd82dd,
     0x982563f8, 0x712aa9ff, 0x279a61e8, 0x970f72bd,
     0x1c25931a, 0x5180bb10, 0x779c27e7, 0x54077e08,
     0xa9b751fb, 0x382f3ce2, 0x8db1757d, 0xcc38080b]

  const STATE9: Words :=
    [0xb6b87de6, 0x9a016148, 0x93859815, 0x4915e6cc,
     0xdc33c122, 0x98e18fa3, 0x5ffbe8fc, 0xf7154b8b,
     0x28c1fcb3, 0xc4b38f9d, 0x83e2f5d7, 0x7d24b98b,
     0x21078b22, 0xb193e7a3, 0xb2f49389, 0x6cde6026]

  const STATE10: Words :=
    [0x837778ab, 0xe238d763, 0xa67ae21e, 0x5950bb2f,
     0xc4f2d0c7, 0xfc62bb2f, 0x8fa018fc, 0x3f5ec7b7,
     0x335271c2, 0xf29489f3, 0xeabda8fc, 0x82e46ebd,
     0xd19c12b4, 0xb04e16de, 0x9e83d0cb, 0x4e3c50a2]

  // The block, in four rows of sixteen bytes.

  type Row = r: Bytes | |r| == 16 witness seq(16, _ => 0)

  const ROW0: Row :=
    [0x10, 0xf1, 0xe7, 0xe4, 0xd1, 0x3b, 0x59, 0x15, 0x50, 0x0f, 0xdd, 0x1f, 0xa3, 0x20, 0x71, 0xc4]

  const ROW1: Row :=
    [0xc7, 0xd1, 0xf4, 0xc7, 0x33, 0xc0, 0x68, 0x03, 0x04, 0x22, 0xaa, 0x9a, 0xc3, 0xd4, 0x6c, 0x4e]

  const ROW2: Row :=
    [0xd2, 0x82, 0x64, 0x46, 0x07, 0x9f, 0xaa, 0x09, 0x14, 0xc2, 0xd7, 0x05, 0xd9, 0x8b, 0x02, 0xa2]

  const ROW3: Row :=
    [0xb5, 0x12, 0x9c, 0xd1, 0xde, 0x16, 0x4e, 0xb9, 0xcb, 0xd0, 0x83, 0xe8, 0xa2, 0x50, 0x3c, 0x4e]

  /** The vector's key, counter and nonce as words. */
  lemma InputVector()
    ensures RfcState(KEY, 1, NONCE) == STATE0
  {
  }

  // ----- Twenty rounds -----

  function Turn(s: Words, i: nat, j: nat, k: nat, l: nat): Words
    requires Positions(i, j, k, l)
  {
    var r := QuarterRound(Quad(s[i], s[j], s[k], s[l]));
    s[i := r.a][j := r.b][k := r.c][l := r.d]
  }

  lemma ByQuarters(s: Words)
    ensures DoubleRound(s) == Turn(Turn(Turn(Turn(Turn(Turn(Turn(Turn(s,
      0, 4, 8, 12), 1, 5, 9, 13), 2, 6, 10, 14), 3, 7, 11, 15),
      0, 5, 10, 15), 1, 6, 11, 12), 2, 7, 8, 13), 3, 4, 9, 14)
  {
    hide QuarterRound;
  }

  // The quarter rounds of each double round: four on the columns, four on the diagonals.

  lemma Columns1()
    ensures QuarterRound(Quad(0x61707865, 0x03020100, 0x13121110, 0x00000001))
         == Quad(0xabbaa25c, 0x3a465196, 0x6b3ca454, 0xdec62ed2)
    ensures QuarterRound(Quad(0x3320646e, 0x07060504, 0x17161514, 0x09000000))
         == Quad(0x1efa51ea, 0x1c7e64f6, 0x08eb14b1, 0x8862cc77)
    ensures QuarterRound(Quad(0x79622d32, 0x0b0a0908, 0x1b1a1918, 0x4a000000))
         == Quad(0x7354fbdf, 0xb12fb628, 0xbf8a9ac9, 0x6e35b345)
    ensures QuarterRound(Quad(0x6b206574, 0x0f0e0d0c, 0x1f1e1d1c, 0x00000000))
         == Quad(0x83d2dc69, 0xf05b6976, 0xe444df3b, 0x52a647f1)
  {
  }

  lemma Diagonals1()
    ensures QuarterRound(Quad(0xabbaa25c, 0x1c7e64f6, 0xbf8a9ac9, 0x52a647f1))
         == Quad(0xcd52e917, 0x5c2e187a, 0xf1a1bdf5, 0xf173888d)
    ensures QuarterRound(Quad(0x1efa51ea, 0xb12fb628, 0xe444df3b, 0xdec62ed2))
         == Quad(0x85ab03b4, 0xc95eb461, 0x761246ca, 0x6b0d58a3)
    ensures QuarterRound(Quad(0x7354fbdf, 0xf05b6976, 0x6b3ca454, 0x8862cc77))
         == Quad(0xb3457395, 0x316c801a, 0x7bf7d740, 0x6798471a)
    ensures QuarterRound(Quad(0x83d2dc69, 0x3a465196, 0x08eb14b1, 0x6e35b345))
         == Quad(0xf96de7dd, 0xc4b7cd22, 0x7eddd644, 0xd737f167)
  {
  }

  lemma DoubleRound1()
    ensures DoubleRound(STATE0) == STATE1
  {
    hide QuarterRound, DoubleRound;
    Columns1();
    Diagonals1();
    ByQuarters(STATE0);
  }

  lemma Columns2()
    ensures QuarterRound(Quad(0xcd52e917, 0xc4b7cd22, 0x7bf7d740, 0x6b0d58a3))
         == Quad(0xe3e1111b, 0xd65b5b5b, 0xe67aec54, 0x7be81c0d)
    ensures QuarterRound(Quad(0x85ab03b4, 0x5c2e187a, 0x7eddd644, 0x6798471a))
         == Quad(0xa6291491, 0xf56af099, 0xf7a52d82, 0x1d92d0fd)
    ensures QuarterRound(Quad(0xb3457395, 0xc95eb461, 0xf1a1bdf5, 0xd737f167))
         == Quad(0x5a82b80c, 0x4ccc8103, 0xdb470914, 0x13139f8c)
    ensures QuarterRound(Quad(0xf96de7dd, 0x316c801a, 0x761246ca, 0xf173888d))
         == Quad(0x4500fd45, 0xc94d29e2, 0xdfb40f1d, 0x7a26ecaa)
  {
  }

  lemma Diagonals2()
    ensures QuarterRound(Quad(0xe3e1111b, 0xf56af099, 0xdb470914, 0x7a26ecaa))
         == Quad(0xcf1a7584, 0x7974b81c, 0xcd3c9aa0, 0x04d6ee22)
    ensures QuarterRound(Quad(0xa6291491, 0x4ccc8103, 0xdfb40f1d, 0x7be81c0d))
         == Quad(0x048927ec, 0x378dcfb4, 0x79fc89c7, 0x10aef18d)
    ensures QuarterRound(Quad(0x5a82b80c, 0xc94d29e2, 0xe67aec54, 0x1d92d0fd))
         == Quad(0x54051fda, 0xcd47fd0e, 0x2dafb216, 0x16218765)
    ensures QuarterRound(Quad(0x4500fd45, 0xd65b5b5b, 0xf7a52d82, 0x13139f8c))
         == Quad(0xc244ff28, 0x901d2f40, 0x27c89cd6, 0x68f76705)
  {
  }

  lemma DoubleRound2()
    ensures DoubleRound(STATE1) == STATE2
  {
    hide QuarterRound, DoubleRound;
    Columns2();
    Diagonals2();
    ByQuarters(STATE1);
  }

  lemma Columns3()
    ensures QuarterRound(Quad(0xcf1a7584, 0x901d2f40, 0x2dafb216, 0x10aef18d))
         == Quad(0xa22695f2, 0x1ece4458, 0xf2d36da6, 0x6fda6bf7)
    ensures QuarterRound(Quad(0x048927ec, 0x7974b81c, 0x27c89cd6, 0x16218765))
         == Quad(0xa908cf6c, 0xe82b726f, 0xf4dab980, 0x65a4b0ce)
    ensures QuarterRound(Quad(0x54051fda, 0x378dcfb4, 0xcd3c9aa0, 0x68f76705))
         == Quad(0xe6ae05b2, 0x5a21ab90, 0x7baf5573, 0x25e6d76e)
    ensures QuarterRound(Quad(0xc244ff28, 0xcd47fd0e, 0x79fc89c7, 0x04d6ee22))
         == Quad(0xfe0ff04b, 0x87698c64, 0xa78c270d, 0x1b7b11ec)
  {
  }

  lemma Diagonals3()
    ensures QuarterRound(Quad(0xa22695f2, 0xe82b726f, 0x7baf5573, 0x1b7b11ec))
         == Quad(0x03a14032, 0xa09b33dd, 0xc20e01b6, 0x2cd11b1a)
    ensures QuarterRound(Quad(0xa908cf6c, 0x5a21ab90, 0xa78c270d, 0x6fda6bf7))
         == Quad(0x66b15927, 0xa5daaf88, 0x72cd6b74, 0xba35d777)
    ensures QuarterRound(Quad(0xe6ae05b2, 0x87698c64, 0xf2d36da6, 0x65a4b0ce))
         == Quad(0x9d6b6b42, 0x2fd91a73, 0xc90c6b18, 0xb360f1bf)
    ensures QuarterRound(Quad(0xfe0ff04b, 0x1ece4458, 0xf4dab980, 0x25e6d76e))
         == Quad(0xb84c4109, 0xa7143ae0, 0x5a202413, 0x8178315b)
  {
  }

  lemma DoubleRound3()
    ensures DoubleRound(STATE2) == STATE3
  {
    hide QuarterRound, DoubleRound;
    Columns3();
    Diagonals3();
    ByQuarters(STATE2);
  }

  lemma Columns4()
    ensures QuarterRound(Quad(0x03a14032, 0xa7143ae0, 0xc90c6b18, 0xba35d777))
         == Quad(0xfecd0838, 0xcedf6624, 0x1d8a33ea, 0xa818b852)
    ensures QuarterRound(Quad(0x66b15927, 0xa09b33dd, 0x5a202413, 0xb360f1bf))
         == Quad(0x160ab468, 0xb11de6c4, 0x87dc1ca9, 0xb100446a)
    ensures QuarterRound(Quad(0x9d6b6b42, 0xa5daaf88, 0xc20e01b6, 0x8178315b))
         == Quad(0x9a0ddf4e, 0xbd7810ef, 0x89bd34a5, 0x9c1d70b1)
    ensures QuarterRound(Quad(0xb84c4109, 0x2fd91a73, 0x72cd6b74, 0x2cd11b1a))
         == Quad(0xbac7154a, 0xd22b5643, 0x5505ef62, 0xa1d1befa)
  {
  }

  lemma Diagonals4()
    ensures QuarterRound(Quad(0xfecd0838, 0xb11de6c4, 0x89bd34a5, 0xa1d1befa))
         == Quad(0x9a2d3589, 0x5e5993f7, 0x04fef5aa, 0x2b3bb2ca)
    ensures QuarterRound(Quad(0x160ab468, 0xbd7810ef, 0x5505ef62, 0xa818b852))
         == Quad(0x0b23fc4e, 0x9904c2e7, 0xf8933f72, 0x2687d476)
    ensures QuarterRound(Quad(0x9a0ddf4e, 0xd22b5643, 0x1d8a33ea, 0xb100446a))
         == Quad(0x40af3b6b, 0x0d334718, 0xe46c6354, 0x54e65231)
    ensures QuarterRound(Quad(0xbac7154a, 0xcedf6624, 0x87dc1ca9, 0x9c1d70b1))
         == Quad(0xceea8144, 0x0a1bffc6, 0xc9503229, 0x3594ffc5)
  {
  }

  lemma DoubleRound4()
    ensures DoubleRound(STATE3) == STATE4
  {
    hide QuarterRound, DoubleRound;
    Columns4();
    Diagonals4();
    ByQuarters(STATE3);
  }

  lemma Columns5()
    ensures QuarterRound(Quad(0x9a2d3589, 0x0a1bffc6, 0xe46c6354, 0x2687d476))
         == Quad(0x85e7824a, 0x1c133ea1, 0xa3a66a86, 0xde008464)
    ensures QuarterRound(Quad(0x0b23fc4e, 0x5e5993f7, 0xc9503229, 0x54e65231))
         == Quad(0x4940cd9e, 0xbba40b0f, 0xc0b4754f, 0x34f0058b)
    ensures QuarterRound(Quad(0x40af3b6b, 0x9904c2e7, 0x04fef5aa, 0x3594ffc5))
         == Quad(0xfbe7684b, 0x9413992a, 0x771b4ecb, 0x70846cfa)
    ensures QuarterRound(Quad(0xceea8144, 0x0d334718, 0xf8933f72, 0x2b3bb2ca))
         == Quad(0x7335d03d, 0xa4ab2040, 0x165151a1, 0xa3271b09)
  {
  }

  lemma Diagonals5()
    ensures QuarterRound(Quad(0x85e7824a, 0xbba40b0f, 0x771b4ecb, 0xa3271b09))
         == Quad(0xc53318c5, 0x6088d379, 0x71669aca, 0x63fa6953)
    ensures QuarterRound(Quad(0x4940cd9e, 0x9413992a, 0x165151a1, 0xde008464))
         == Quad(0xca325d96, 0xc0f0e9bd, 0x975c171d, 0x9e5ec228)
    ensures QuarterRound(Quad(0xfbe7684b, 0xa4ab2040, 0xa3a66a86, 0x34f0058b))
         == Quad(0x7e7d11cb, 0xe310cdb9, 0xae2ca8db, 0x7d85a9f3)
    ensures QuarterRound(Quad(0x7335d03d, 0x1c133ea1, 0xc0b4754f, 0x70846cfa))
         == Quad(0x3404e2ca, 0x26d7cf73, 0x42f67c72, 0x201d0756)
  {
  }

  lemma DoubleRound5()
    ensures DoubleRound(STATE4) == STATE5
  {
    hide QuarterRound, DoubleRound;
    Columns5();
    Diagonals5();
    ByQuarters(STATE4);
  }

  lemma Columns6()
    ensures QuarterRound(Quad(0xc53318c5, 0x26d7cf73, 0xae2ca8db, 0x9e5ec228))
         == Quad(0x9950b826, 0x2121065a, 0x19078de2, 0x40ca72b3)
    ensures QuarterRound(Quad(0xca325d96, 0x6088d379, 0x42f67c72, 0x7d85a9f3))
         == Quad(0xcac7ccc6, 0xc12bdadb, 0x178ecc02, 0x3b9bf852)
    ensures QuarterRound(Quad(0x7e7d11cb, 0xc0f0e9bd, 0x71669aca, 0x201d0756))
         == Quad(0x84a67673, 0xcae3acd1, 0xe6adbdb2, 0x78690378)
    ensures QuarterRound(Quad(0x3404e2ca, 0xe310cdb9, 0x975c171d, 0x63fa6953))
         == Quad(0xdb3109a6, 0x594616cb, 0x52a9d50e, 0xe17d4902)
  {
  }

  lemma Diagonals6()
    ensures QuarterRound(Quad(0x9950b826, 0xc12bdadb, 0xe6adbdb2, 0xe17d4902))
         == Quad(0x04a3131a, 0xbf8a4465, 0x61599491, 0xa0a81bde)
    ensures QuarterRound(Quad(0xcac7ccc6, 0xcae3acd1, 0x52a9d50e, 0x40ca72b3))
         == Quad(0x66176309, 0xf77dd720, 0x918512dc, 0x33b6686d)
    ensures QuarterRound(Quad(0x84a67673, 0x594616cb, 0x19078de2, 0x3b9bf852))
         == Quad(0x0415bab1, 0xfc0bdc90, 0x07d13aca, 0x795cc671)
    ensures QuarterRound(Quad(0xdb3109a6, 0x2121065a, 0x178ecc02, 0x78690378))
         == Quad(0x61b880a2, 0x36cc86c7, 0xeb0be9af, 0xc0049972)
  {
  }

  lemma DoubleRound6()
    ensures DoubleRound(STATE5) == STATE6
  {
    hide QuarterRound, DoubleRound;
    Columns6();
    Diagonals6();
    ByQuarters(STATE5);
  }

  lemma Columns7()
    ensures QuarterRound(Quad(0x04a3131a, 0x36cc86c7, 0x07d13aca, 0x33b6686d))
         == Quad(0x57c5e6da, 0x8e85d82f, 0x434b4749, 0x49ee03a6)
    ensures QuarterRound(Quad(0x66176309, 0xbf8a4465, 0xeb0be9af, 0x795cc671))
         == Quad(0x35ce46a8, 0xb4819d06, 0x1d459c00, 0xd11a5554)
    ensures QuarterRound(Quad(0x0415bab1, 0xf77dd720, 0x61599491, 0xc0049972))
         == Quad(0x0c041bb9, 0xb63be200, 0x111cfe2c, 0xa7202e04)
    ensures QuarterRound(Quad(0x61b880a2, 0xfc0bdc90, 0x918512dc, 0xa0a81bde))
         == Quad(0xfa91df79, 0xacd221e4, 0x55942604, 0x7d2215bc)
  {
  }

  lemma Diagonals7()
    ensures QuarterRound(Quad(0x57c5e6da, 0xb4819d06, 0x111cfe2c, 0x7d2215bc))
         == Quad(0x9b70f51f, 0x6a4c50ae, 0xd3fde99e, 0x2c847a0d)
    ensures QuarterRound(Quad(0x35ce46a8, 0xb63be200, 0x55942604, 0x49ee03a6))
         == Quad(0x7ea8ac11, 0x19212a5a, 0x26acc13d, 0xa609f555)
    ensures QuarterRound(Quad(0x0c041bb9, 0xacd221e4, 0x434b4749, 0xd11a5554))
         == Quad(0x21e54da9, 0x9b032958, 0xd839165e, 0x2c246549)
    ensures QuarterRound(Quad(0xfa91df79, 0x8e85d82f, 0x1d459c00, 0xa7202e04))
         == Quad(0xca393b2f, 0x93b08686, 0x4c06e28a, 0x95151853)
  {
  }

  lemma DoubleRound7()
    ensures DoubleRound(STATE6) == STATE7
  {
    hide QuarterRound, DoubleRound;
    Columns7();
    Diagonals7();
    ByQuarters(STATE6);
  }

  lemma Columns8()
    ensures QuarterRound(Quad(0x9b70f51f, 0x93b08686, 0xd839165e, 0xa609f555))
         == Quad(0xc0b18aee, 0xdeb54e9c, 0xa82d65d4, 0x4103c64e)
    ensures QuarterRound(Quad(0x7ea8ac11, 0x6a4c50ae, 0x4c06e28a, 0x2c246549))
         == Quad(0x087445ba, 0x802c883b, 0x687f11eb, 0x82816a91)
    ensures QuarterRound(Quad(0x21e54da9, 0x19212a5a, 0xd3fde99e, 0x95151853))
         == Quad(0x36e52ad9, 0x06e86889, 0xe9d36207, 0xb584ca56)
    ensures QuarterRound(Quad(0xca393b2f, 0x9b032958, 0x26acc13d, 0x2c847a0d))
         == Quad(0xa777426a, 0x3c002680, 0x4242ddae, 0xfd0bd2b9)
  {
  }

  lemma Diagonals8()
    ensures QuarterRound(Quad(0xc0b18aee, 0x802c883b, 0xe9d36207, 0xfd0bd2b9))
         == Quad(0xca5c85dd, 0x712aa9ff, 0x779c27e7, 0xcc38080b)
    ensures QuarterRound(Quad(0x087445ba, 0x06e86889, 0x4242ddae, 0x4103c64e))
         == Quad(0x93a4f90e, 0x279a61e8, 0x54077e08, 0xa9b751fb)
    ensures QuarterRound(Quad(0x36e52ad9, 0x3c002680, 0xa82d65d4, 0x82816a91))
         == Quad(0xd9f0df58, 0x970f72bd, 0x1c25931a, 0x382f3ce2)
    ensures QuarterRound(Quad(0xa777426a, 0xdeb54e9c, 0x687f11eb, 0xb584ca56))
         == Quad(0x26dd82dd, 0x982563f8, 0x5180bb10, 0x8db1757d)
  {
  }

  lemma DoubleRound8()
    ensures DoubleRound(STATE7) == STATE8
  {
    hide QuarterRound, DoubleRound;
    Columns8();
    Diagonals8();
    ByQuarters(STATE7);
  }

  lemma Columns9()
    ensures QuarterRound(Quad(0xca5c85dd, 0x982563f8, 0x1c25931a, 0xa9b751fb))
         == Quad(0x765c6e9c, 0x9046ecaa, 0x46fa091e, 0x72a5aace)
    ensures QuarterRound(Quad(0x93a4f90e, 0x712aa9ff, 0x5180bb10, 0x382f3ce2))
         == Quad(0x5ab09b11, 0x7b88d882, 0x5117e9b5, 0x5fa7f1c5)
    ensures QuarterRound(Quad(0xd9f0df58, 0x279a61e8, 0x779c27e7, 0x8db1757d))
         == Quad(0x3ee7da04, 0xb9b577dd, 0x862ff22b, 0xda563e0a)
    ensures QuarterRound(Quad(0x26dd82dd, 0x970f72bd, 0x54077e08, 0xcc38080b))
         == Quad(0x37c31203, 0x156de7ed, 0xa3fcc7a6, 0x5263d7ca)
  {
  }

  lemma Diagonals9()
    ensures QuarterRound(Quad(0x765c6e9c, 0x7b88d882, 0x862ff22b, 0x5263d7ca))
         == Quad(0xb6b87de6, 0x98e18fa3, 0x83e2f5d7, 0x6cde6026)
    ensures QuarterRound(Quad(0x5ab09b11, 0xb9b577dd, 0xa3fcc7a6, 0x72a5aace))
         == Quad(0x9a016148, 0x5ffbe8fc, 0x7d24b98b, 0x21078b22)
    ensures QuarterRound(Quad(0x3ee7da04, 0x156de7ed, 0x46fa091e, 0x5fa7f1c5))
         == Quad(0x93859815, 0xf7154b8b, 0x28c1fcb3, 0xb193e7a3)
    ensures QuarterRound(Quad(0x37c31203, 0x9046ecaa, 0x5117e9b5, 0xda563e0a))
         == Quad(0x4915e6cc, 0xdc33c122, 0xc4b38f9d, 0xb2f49389)
  {
  }

  lemma DoubleRound9()
    ensures DoubleRound(STATE8) == STATE9
  {
    hide QuarterRound, DoubleRound;
    Columns9();
    Diagonals9();
    ByQuarters(STATE8);
  }

  lemma Columns10()
    ensures QuarterRound(Quad(0xb6b87de6, 0xdc33c122, 0x28c1fcb3, 0x21078b22))
         == Quad(0x8a07ff15, 0x913768fe, 0x0a39aedc, 0x2d4cfe3e)
    ensures QuarterRound(Quad(0x9a016148, 0x98e18fa3, 0xc4b38f9d, 0xb193e7a3))
         == Quad(0x0cadc51c, 0x442a0c0c, 0xc1428029, 0xe5466d1b)
    ensures QuarterRound(Quad(0x93859815, 0x5ffbe8fc, 0x83e2f5d7, 0xb2f49389))
         == Quad(0x017c8da9, 0x598fe3bb, 0x7b48135f, 0xe4ccdc13)
    ensures QuarterRound(Quad(0x4915e6cc, 0xf7154b8b, 0x7d24b98b, 0x6cde6026))
         == Quad(0x4afbe5df, 0x47d18828, 0x5a5f1098, 0x8ac92a18)
  {
  }

  lemma Diagonals10()
    ensures QuarterRound(Quad(0x8a07ff15, 0x442a0c0c, 0x7b48135f, 0x8ac92a18))
         == Quad(0x837778ab, 0xfc62bb2f, 0xeabda8fc, 0x4e3c50a2)
    ensures QuarterRound(Quad(0x0cadc51c, 0x598fe3bb, 0x5a5f1098, 0x2d4cfe3e))
         == Quad(0xe238d763, 0x8fa018fc, 0x82e46ebd, 0xd19c12b4)
    ensures QuarterRound(Quad(0x017c8da9, 0x47d18828, 0x0a39aedc, 0xe5466d1b))
         == Quad(0xa67ae21e, 0x3f5ec7b7, 0x335271c2, 0xb04e16de)
    ensures QuarterRound(Quad(0x4afbe5df, 0x913768fe, 0xc1428029, 0xe4ccdc13))
         == Quad(0x5950bb2f, 0xc4f2d0c7, 0xf29489f3, 0x9e83d0cb)
  {
  }

  lemma DoubleRound10()
    ensures DoubleRound(STATE9) == STATE10
  {
    hide QuarterRound, DoubleRound;
    Columns10();
    Diagonals10();
    ByQuarters(STATE9);
  }

  lemma OneMore(n: nat, s: Words)
    ensures DoubleRounds(0, s) == s && DoubleRounds(n + 1, s) == DoubleRound(DoubleRounds(n, s))
  {
    hide DoubleRound;
  }

  lemma TwentyRounds()
    ensures DoubleRounds(10, STATE0) == STATE10
  {
    hide DoubleRound, DoubleRounds;
    OneMore(0, STATE0);
    DoubleRound1();
    OneMore(1, STATE0);
    DoubleRound2();
    OneMore(2, STATE0);
    DoubleRound3();
    OneMore(3, STATE0);
    DoubleRound4();
    OneMore(4, STATE0);
    DoubleRound5();
    OneMore(5, STATE0);
    DoubleRound6();
    OneMore(6, STATE0);
    DoubleRound7();
    OneMore(7, STATE0);
    DoubleRound8();
    OneMore(8, STATE0);
    DoubleRound9();
    OneMore(9, STATE0);
    DoubleRound10();
  }

  // ----- The block -----

  lemma Row0()
    ensures LittleEndian(Add(STATE10[0], STATE0[0])) == ROW0[0..4]
    ensures LittleEndian(Add(STATE10[1], STATE0[1])) == ROW0[4..8]
    ensures LittleEndian(Add(STATE10[2], STATE0[2])) == ROW0[8..12]
    ensures LittleEndian(Add(STATE10[3], STATE0[3])) == ROW0[12..16]
  {
    assert 0x837778ab + 0x61707865 as bv32 == 0xe4e7f110;
    assert 0xe238d763 + 0x3320646e as bv32 == 0x15593bd1;
    assert 0xa67ae21e + 0x79622d32 as bv32 == 0x1fdd0f50;
    assert 0x5950bb2f + 0x6b206574 as bv32 == 0xc47120a3;
  }

  lemma Row1()
    ensures LittleEndian(Add(STATE10[4], STATE0[4])) == ROW1[0..4]
    ensures LittleEndian(Add(STATE10[5], STATE0[5])) == ROW1[4..8]
    ensures LittleEndian(Add(STATE10[6], STATE0[6])) == ROW1[8..12]
    ensures LittleEndian(Add(STATE10[7], STATE0[7])) == ROW1[12..16]
  {
    assert 0xc4f2d0c7 + 0x03020100 as bv32 == 0xc7f4d1c7;
    assert 0xfc62bb2f + 0x07060504 as bv32 == 0x0368c033;
    assert 0x8fa018fc + 0x0b0a0908 as bv32 == 0x9aaa2204;
    assert 0x3f5ec7b7 + 0x0f0e0d0c as bv32 == 0x4e6cd4c3;
  }

  lemma Row2()
    ensures LittleEndian(Add(STATE10[8], STATE0[8])) == ROW2[0..4]
    ensures LittleEndian(Add(STATE10[9], STATE0[9])) == ROW2[4..8]
    ensures LittleEndian(Add(STATE10[10], STATE0[10])) == ROW2[8..12]
    ensures LittleEndian(Add(STATE10[11], STATE0[11])) == ROW2[12..16]
  {
    assert 0x335271c2 + 0x13121110 as bv32 == 0x466482d2;
    assert 0xf29489f3 + 0x17161514 as bv32 == 0x09aa9f07;
    assert 0xeabda8fc + 0x1b1a1918 as bv32 == 0x05d7c214;
    assert 0x82e46ebd + 0x1f1e1d1c as bv32 == 0xa2028bd9;
  }

  lemma Row3()
    ensures LittleEndian(Add(STATE10[12], STATE0[12])) == ROW3[0..4]
    ensures LittleEndian(Add(STATE10[13], STATE0[13])) == ROW3[4..8]
    ensures LittleEndian(Add(STATE10[14], STATE0[14])) == ROW3[8..12]
    ensures LittleEndian(Add(STATE10[15], STATE0[15])) == ROW3[12..16]
  {
    assert 0xd19c12b4 + 0x00000001 as bv32 == 0xd19c12b5;
    assert 0xb04e16de + 0x09000000 as bv32 == 0xb94e16de;
    assert 0x9e83d0cb + 0x4a000000 as bv32 == 0xe883d0cb;
    assert 0x4e3c50a2 + 0x00000000 as bv32 == 0x4e3c50a2;
  }

  lemma FourParts(s: Bytes, a: Bytes, b: Bytes, c: Bytes, d: Bytes, n: nat)
    requires |s| == 4 * n && s[..n] == a && s[n..2 * n] == b && s[2 * n..3 * n] == c && s[3 * n..] == d
    ensures s == a + b + c + d
  {
  }

  /** A row of a block by its four words. */
  lemma RowOfBlock(w: Words, x: Words, i: nat, row: Row)
    requires i <= 12 && x == DoubleRounds(10, w)
    requires LittleEndian(Add(x[i], w[i])) == row[0..4]
    requires LittleEndian(Add(x[i + 1], w[i + 1])) == row[4..8]
    requires LittleEndian(Add(x[i + 2], w[i + 2])) == row[8..12]
    requires LittleEndian(Add(x[i + 3], w[i + 3])) == row[12..16]
    ensures Block(w)[4 * i..4 * i + 16] == row
  {
    hide DoubleRounds, Block, LittleEndian, Add;
    WordOfBlock(w, i);
    WordOfBlock(w, i + 1);
    WordOfBlock(w, i + 2);
    WordOfBlock(w, i + 3);
    SameParts(Block(w), 4 * i, row);
  }

  lemma SameParts(b: Bytes, k: nat, row: Row)
    requires k + 16 <= |b|
    requires b[k..k + 4] == row[0..4] && b[k + 4..k + 8] == row[4..8]
    requires b[k + 8..k + 12] == row[8..12] && b[k + 12..k + 16] == row[12..16]
    ensures b[k..k + 16] == row
  {
    forall j | 0 <= j < 16
      ensures b[k + j] == row[j]
    {
      if j < 4 {
        assert b[k..k + 4][j] == row[0..4][j];
      } else if j < 8 {
        assert b[k + 4..k + 8][j - 4] == row[4..8][j - 4];
      } else if j < 12 {
        assert b[k + 8..k + 12][j - 8] == row[8..12][j - 8];
      } else {
        assert b[k + 12..k + 16][j - 12] == row[12..16][j - 12];
      }
    }
  }

  /** The block of section 2.3.2 of RFC 8439. */
  lemma BlockVector()
    ensures Block(RfcState(KEY, 1, NONCE)) == ROW0 + ROW1 + ROW2 + ROW3
  {
    hide *;
    InputVector();
    TwentyRounds();
    Row0();
    Row1();
    Row2();
    Row3();
    RowOfBlock(STATE0, STATE10, 0, ROW0);
    RowOfBlock(STATE0, STATE10, 4, ROW1);
    RowOfBlock(STATE0, STATE10, 8, ROW2);
    RowOfBlock(STATE0, STATE10, 12, ROW3);
    FourParts(Block(STATE0), ROW0, ROW1, ROW2, ROW3, 16);
  }

  lemma CounterOne()
    ensures Number(1) == 1
  {
    assert Add(0, 1) == 1;
    ZeroNumber();
    NumberNext(0);
  }

  lemma XorZero(b: Byte)
    ensures 0 ^ b == b
  {
  }

  lemma KeyAndNonce()
    ensures |KEY| == 32 && |NONCE| == 12
  {
  }

  /** So a stream under this key and nonce encrypts zeros to that block, from byte 64 on. */
  lemma StreamVector()
    ensures XorStream(KEY, NONCE, 64, seq(64, _ => 0)) == ROW0 + ROW1 + ROW2 + ROW3
  {
    hide Block, RfcState, StateAt, LoadLE, Number, KeystreamByte, KEY, NONCE, ROW0, ROW1, ROW2, ROW3;
    KeyAndNonce();
    CounterOne();
    RfcAgreement(KEY, NONCE, 1, 1);
    BlockVector();
    var zeros := seq(64, _ => 0);
    forall i | 0 <= i < 64
      ensures XorStream(KEY, NONCE, 64, zeros)[i] == Block(RfcState(KEY, 1, NONCE))[i]
    {
      SecondBlock(KEY, NONCE, i);
      XorZero(KeystreamByte(KEY, NONCE, 64 + i));
    }
  }

  lemma SecondBlock(key: Bytes, iv: Bytes, i: nat)
    requires ValidKey(key) && ValidIV(iv) && i < 64
    ensures KeystreamByte(key, iv, 64 + i) == Block(StateAt(key, iv, 1))[i]
  {
    hide Block, StateAt;
    assert (64 + i) / 64 == 1 && (64 + i) % 64 == i;
  }
}
