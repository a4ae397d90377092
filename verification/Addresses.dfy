/** Addresses and the address header both SOCKS5 requests and the proxy protocol carry. */
module Addresses {
  import opened Bits
  import opened ByteStrings

  type Bytes16 = b: Bytes | |b| == 16 witness seq(16, _ => 0)

  datatype IP = V4(n: bv32) | V6(c: Bytes16)

  /** QHostAddress's reading and writing of IP literals. */
  datatype Text = Text(parse: Bytes -> Option<IP>, show: IP -> Bytes)

  ghost predicate ValidText(q: Text) {
    && (forall ip: IP :: q.parse(q.show(ip)) == Some(ip))
    && (forall s: Bytes :: q.parse(Trim(s)) == q.parse(s))
    && q.parse([]) == None
  }

  // ----- Trimming -----

  predicate IsSpace(b: Byte) {
    9 <= b <= 13 || b == 32
  }

  function TrimLeft(s: Bytes): Bytes {
    if s != [] && IsSpace(s[0]) then TrimLeft(s[1..]) else s
  }

  function TrimRight(s: Bytes): Bytes {
    if s != [] && IsSpace(s[|s| - 1]) then TrimRight(s[..|s| - 1]) else s
  }

  function Trim(s: Bytes): Bytes {
    TrimRight(TrimLeft(s))
  }

  predicate Trimmed(s: Bytes) {
    s != [] ==> !IsSpace(s[0]) && !IsSpace(s[|s| - 1])
  }

  lemma {:induction false} TrimLeftFacts(s: Bytes)
    ensures |TrimLeft(s)| <= |s|
    ensures TrimLeft(s) != [] ==> !IsSpace(TrimLeft(s)[0])
  {
    if s != [] && IsSpace(s[0]) {
      TrimLeftFacts(s[1..]);
    }
  }

  lemma {:induction false} TrimRightFacts(s: Bytes)
    ensures |TrimRight(s)| <= |s|
    ensures TrimRight(s) != [] ==> !IsSpace(TrimRight(s)[|TrimRight(s)| - 1]) && TrimRight(s)[0] == s[0]
  {
    if s != [] && IsSpace(s[|s| - 1]) {
      TrimRightFacts(s[..|s| - 1]);
    }
  }

  lemma TrimIsTrimmed(s: Bytes)
    ensures Trimmed(Trim(s))
    ensures Trimmed(s) ==> Trim(s) == s
    ensures !Trimmed(s) ==> |Trim(s)| < |s|
  {
    TrimLeftFacts(s);
    TrimRightFacts(TrimLeft(s));
    if s != [] && IsSpace(s[0]) {
      TrimLeftFacts(s[1..]);
    } else if s != [] && IsSpace(s[|s| - 1]) {
      TrimRightFacts(s[..|s| - 1]);
    }
  }

  /** The six white space characters of ASCII. */
  predicate White(s: Bytes) {
    forall b :: b in s ==> b == 9 || b == 10 || b == 11 || b == 12 || b == 13 || b == 32
  }

  lemma {:induction false} TrimLeftCuts(s: Bytes) returns (cut: Bytes)
    ensures s == cut + TrimLeft(s) && White(cut)
  {
    cut := [];
    if s != [] && IsSpace(s[0]) {
      var more := TrimLeftCuts(s[1..]);
      cut := [s[0]] + more;
    }
  }

  lemma {:induction false} TrimRightCuts(s: Bytes) returns (cut: Bytes)
    ensures s == TrimRight(s) + cut && White(cut)
  {
    cut := [];
    if s != [] && IsSpace(s[|s| - 1]) {
      var more := TrimRightCuts(s[..|s| - 1]);
      cut := more + [s[|s| - 1]];
    }
  }

  /** Trimming takes white space off both ends, all that there is, and nothing else. */
  lemma TrimExactly(s: Bytes) returns (left: Bytes, right: Bytes)
    ensures s == left + Trim(s) + right && White(left) && White(right)
    ensures Trim(s) != [] ==> !White([Trim(s)[0]]) && !White([Trim(s)[|Trim(s)| - 1]])
  {
    hide TrimLeft, TrimRight;
    left := TrimLeftCuts(s);
    right := TrimRightCuts(TrimLeft(s));
    assert s == left + (Trim(s) + right) == left + Trim(s) + right;
    TrimIsTrimmed(s);
    if Trim(s) != [] {
      var first, last := Trim(s)[0], Trim(s)[|Trim(s)| - 1];
      assert first in [first] && last in [last];
    }
  }

  // ----- Address values -----

  datatype Endpoint = Endpoint(text: Bytes, port: bv16, ips: seq<IP>)

  datatype ATYP = IPV4 | HOST | IPV6

  const ATYP_IPV4: Byte := 1
  const ATYP_HOST: Byte := 3
  const ATYP_IPV6: Byte := 4

  function AddressType(q: Text, a: Endpoint): ATYP {
    match q.parse(a.text)
    case None => HOST
    case Some(V4(_)) => IPV4
    case Some(V6(_)) => IPV6
  }

  /** What the setters keep: a literal's only address is the one it spells, a name is trimmed. */
  predicate Consistent(q: Text, a: Endpoint) {
    match q.parse(a.text)
    case None => Trimmed(a.text)
    case Some(ip) => a.ips == [ip]
  }

  function WithText(q: Text, a: Endpoint, s: Bytes): Endpoint {
    a.(text := Trim(s), ips := match q.parse(s) case None => [] case Some(ip) => [ip])
  }

  function WithIP(q: Text, a: Endpoint, ip: IP): Endpoint {
    a.(text := q.show(ip), ips := [ip])
  }

  lemma OnlyNamesLackIPs(q: Text, a: Endpoint)
    requires Consistent(q, a) && a.ips == []
    ensures q.parse(a.text) == None
  {
  }

  // ----- Byte order -----

  function PortBytes(x: bv16): Bytes {
    [(x >> 8) as bv8, (x & 0xff) as bv8]
  }

  function PortOf(hi: Byte, lo: Byte): bv16 {
    ((hi as bv16) << 8) | (lo as bv16)
  }

  function V4Bytes(x: bv32): Bytes {
    [(x >> 24) as bv8, ((x >> 16) & 0xff) as bv8, ((x >> 8) & 0xff) as bv8, (x & 0xff) as bv8]
  }

  function V4Of(b0: Byte, b1: Byte, b2: Byte, b3: Byte): bv32 {
    ((b0 as bv32) << 24) | ((b1 as bv32) << 16) | ((b2 as bv32) << 8) | (b3 as bv32)
  }

  lemma PortRoundTrip(x: bv16)
    ensures |PortBytes(x)| == 2 && PortOf(PortBytes(x)[0], PortBytes(x)[1]) == x
  {
  }

  lemma PortBytesOf(hi: Byte, lo: Byte)
    ensures PortBytes(PortOf(hi, lo)) == [hi, lo]
  {
  }

  lemma V4RoundTrip(x: bv32)
    ensures |V4Bytes(x)| == 4
    ensures V4Of(V4Bytes(x)[0], V4Bytes(x)[1], V4Bytes(x)[2], V4Bytes(x)[3]) == x
  {
  }

  lemma V4BytesOf(b0: Byte, b1: Byte, b2: Byte, b3: Byte)
    ensures V4Bytes(V4Of(b0, b1, b2, b3)) == [b0, b1, b2, b3]
  {
  }

  // ----- The header -----

  /** packAddress for an IP and a port. */
  function PackIP(ip: IP, port: bv16): Bytes {
    match ip
    case V4(n) => [ATYP_IPV4] + V4Bytes(n) + PortBytes(port)
    case V6(c) => [ATYP_IPV6] + c + PortBytes(port)
  }

  /** packAddress for an Address: a name goes with its length in one byte. */
  function PackAddress(q: Text, a: Endpoint): Bytes
    requires Consistent(q, a)
  {
    if AddressType(q, a) == HOST then [ATYP_HOST, ToByte(|a.text|)] + a.text + PortBytes(a.port)
    else PackIP(a.ips[0], a.port)
  }

  datatype Header = NoHeader | Header(dest: Endpoint, len: nat)

  /** Past the terminator nothing is known of memory: junk stands for what is there. */
  function Peek(s: Bytes, i: nat, junk: Byte): Byte {
    if i < |s| then s[i] else if i == |s| then 0 else junk
  }

  const BLANK := Endpoint([], 0, [])

  /** For a name the length test covers the name only, although the port behind it is read as well. */
  function ParseHeader(q: Text, data: Bytes, junk: Byte): Header {
    var kind := At(data, 0) & 0x0f;
    if kind == ATYP_HOST then
      if |data| > 2 && |data| >= 2 + Value(data[1]) then
        var n := Value(data[1]);
        var port := PortOf(Peek(data, 2 + n, junk), Peek(data, 3 + n, junk));
        Header(WithText(q, BLANK.(port := port), data[2..2 + n]), 4 + n)
      else NoHeader
    else if kind == ATYP_IPV4 then
      if |data| >= 7 then
        Header(WithIP(q, BLANK, V4(V4Of(data[1], data[2], data[3], data[4]))).(port := PortOf(data[5], data[6])), 7)
      else NoHeader
    else if kind == ATYP_IPV6 then
      if |data| >= 19 then
        Header(WithIP(q, BLANK, V6(data[1..17])).(port := PortOf(data[17], data[18])), 19)
      else NoHeader
    else NoHeader
  }

  /** The address a packed header is read back as. */
  function Canonical(q: Text, a: Endpoint): Endpoint {
    match q.parse(a.text)
    case None => Endpoint(a.text, a.port, [])
    case Some(ip) => Endpoint(q.show(ip), a.port, [ip])
  }

  lemma MaskKinds()
    ensures ATYP_IPV4 & 0x0f == ATYP_IPV4 && ATYP_HOST & 0x0f == ATYP_HOST && ATYP_IPV6 & 0x0f == ATYP_IPV6
  {
  }

  lemma PackIPThenParse(q: Text, ip: IP, port: bv16, x: Bytes, junk: Byte)
    ensures ParseHeader(q, PackIP(ip, port) + x, junk)
         == Header(Endpoint(q.show(ip), port, [ip]), |PackIP(ip, port)|)
    ensures |PackIP(ip, port)| == if ip.V4? then 7 else 19
  {
    hide PortBytes, PortOf, V4Bytes, V4Of;
    MaskKinds();
    PortRoundTrip(port);
    var data := PackIP(ip, port) + x;
    match ip
    case V4(n) =>
      V4RoundTrip(n);
      assert data[1] == V4Bytes(n)[0] && data[2] == V4Bytes(n)[1];
      assert data[3] == V4Bytes(n)[2] && data[4] == V4Bytes(n)[3];
      assert data[5] == PortBytes(port)[0] && data[6] == PortBytes(port)[1];
    case V6(c) =>
      assert data[1..17] == c;
      assert data[17] == PortBytes(port)[0] && data[18] == PortBytes(port)[1];
  }

  lemma PackedName(q: Text, a: Endpoint)
    requires Consistent(q, a) && AddressType(q, a) == HOST
    ensures var s, n := PackAddress(q, a), |a.text|;
      && |s| == 4 + n && s[0] == ATYP_HOST && s[1] == ToByte(n) && s[2..2 + n] == a.text
      && s[2 + n] == PortBytes(a.port)[0] && s[3 + n] == PortBytes(a.port)[1]
  {
    hide PortOf, Value, ToByte, Trimmed;
  }

  /** A packed name reads back, whatever follows, exactly when its length fits one byte. */
  lemma PackNameThenParse(q: Text, a: Endpoint, x: Bytes, junk: Byte)
    requires Consistent(q, a) && AddressType(q, a) == HOST
    ensures ParseHeader(q, PackAddress(q, a) + x, junk) == Header(Canonical(q, a), |PackAddress(q, a)|)
       <==> |a.text| < 0x100
    ensures |PackAddress(q, a)| == 4 + |a.text|
  {
    hide PortBytes, PortOf, Value, ToByte, Trim, Trimmed, PackAddress;
    MaskKinds();
    PackedName(q, a);
    PortRoundTrip(a.port);
    ValueOfByte(|a.text|);
    KeepsName(q, a.text);
    var n, data := |a.text|, PackAddress(q, a) + x;
    var m := Value(data[1]);
    assert m == n % 0x100 && |data| == 4 + n + |x|;
    if n < 0x100 {
      assert data[2..2 + n] == PackAddress(q, a)[2..2 + n];
      assert data[2 + n] == PortBytes(a.port)[0] && data[3 + n] == PortBytes(a.port)[1];
    } else {
      assert ParseHeader(q, data, junk).len == 4 + m < 4 + n;
    }
  }

  lemma KeepsName(q: Text, name: Bytes)
    requires q.parse(name) == None ==> Trimmed(name)
    ensures q.parse(name) == None ==> forall port :: WithText(q, BLANK.(port := port), name) == Endpoint(name, port, [])
  {
    hide Trimmed, Trim;
    TrimIsTrimmed(name);
  }

  /** Address codec round trip, with any payload behind the header. */
  lemma PackThenParse(q: Text, a: Endpoint, x: Bytes, junk: Byte)
    requires Consistent(q, a)
    ensures ParseHeader(q, PackAddress(q, a) + x, junk) == Header(Canonical(q, a), |PackAddress(q, a)|)
       <==> (AddressType(q, a) == HOST ==> |a.text| < 0x100)
  {
    hide ParseHeader, PackIP;
    if AddressType(q, a) == HOST {
      PackNameThenParse(q, a, x, junk);
    } else {
      PackIPThenParse(q, a.ips[0], a.port, x, junk);
    }
  }

  /** Headers are self-delimiting: two packed headers that start the same bytes are the same header. */
  lemma HeadersSelfDelimiting(q: Text, a: Endpoint, x: Bytes, b: Endpoint, y: Bytes)
    requires Consistent(q, a) && (AddressType(q, a) == HOST ==> |a.text| < 0x100)
    requires Consistent(q, b) && (AddressType(q, b) == HOST ==> |b.text| < 0x100)
    requires PackAddress(q, a) + x == PackAddress(q, b) + y
    ensures Canonical(q, a) == Canonical(q, b) && x == y
  {
    hide ParseHeader, PackAddress, Canonical;
    PackThenParse(q, a, x, 0);
    PackThenParse(q, b, y, 0);
    var m, n := |PackAddress(q, a)|, |PackAddress(q, b)|;
    assert m == n;
    assert x == (PackAddress(q, a) + x)[m..] == (PackAddress(q, b) + y)[n..] == y;
  }

  lemma ParsedConsistent(q: Text, data: Bytes, junk: Byte)
    requires ValidText(q)
    ensures ParseHeader(q, data, junk).Header? ==> Consistent(q, ParseHeader(q, data, junk).dest)
  {
    hide PortOf, V4Of, Value;
    if |data| > 2 && |data| >= 2 + Value(data[1]) {
      TrimIsTrimmed(data[2..2 + Value(data[1])]);
    }
  }

  /**
   Packing a completely present header gives its bytes back, with the high nibble of the first cleared:
   always for an IP, and for a name exactly when it is trimmed and not an IP literal.
   */
  lemma ParseThenPack(q: Text, data: Bytes, junk: Byte)
    requires ValidText(q)
    requires ParseHeader(q, data, junk).Header? && ParseHeader(q, data, junk).len <= |data|
    ensures Consistent(q, ParseHeader(q, data, junk).dest)
    ensures var h := ParseHeader(q, data, junk);
      PackAddress(q, h.dest) == [data[0] & 0x0f] + data[1..h.len]
      <==> (data[0] & 0x0f == ATYP_HOST ==>
              Trimmed(data[2..h.len - 2]) && q.parse(data[2..h.len - 2]) == None)
  {
    hide PackAddress, ParseHeader;
    ParsedConsistent(q, data, junk);
    MaskKinds();
    if At(data, 0) & 0x0f == ATYP_HOST {
      ParseThenPackName(q, data, junk);
    } else {
      ParseThenPackIP(q, data, junk);
    }
  }

  lemma ParseThenPackName(q: Text, data: Bytes, junk: Byte)
    requires ValidText(q) && At(data, 0) & 0x0f == ATYP_HOST
    requires ParseHeader(q, data, junk).Header? && ParseHeader(q, data, junk).len <= |data|
    requires Consistent(q, ParseHeader(q, data, junk).dest)
    ensures ParseHeader(q, data, junk).len >= 4
    ensures var h := ParseHeader(q, data, junk);
      PackAddress(q, h.dest) == [ATYP_HOST] + data[1..h.len]
      <==> Trimmed(data[2..h.len - 2]) && q.parse(data[2..h.len - 2]) == None
  {
    hide PortBytes, PortOf, V4Bytes, V4Of, Value, ToByte, Trim, Trimmed, PackAddress;
    var n, h := Value(data[1]), ParseHeader(q, data, junk);
    var name, hi, lo := data[2..2 + n], data[2 + n], data[3 + n];
    assert h == Header(WithText(q, BLANK.(port := PortOf(hi, lo)), name), 4 + n);
    SplitName(data, n);
    PortBytesOf(hi, lo);
    ByteOfValue(n, data[1]);
    PackTrimmedName(q, name, PortOf(hi, lo));
    assert [ATYP_HOST] + data[1..h.len] == [ATYP_HOST, data[1]] + name + [hi, lo];
  }

  lemma SplitName(data: Bytes, n: nat)
    requires 4 + n <= |data|
    ensures data[1..4 + n] == [data[1]] + data[2..2 + n] + [data[2 + n], data[3 + n]]
  {
  }

  lemma PackTrimmedName(q: Text, name: Bytes, port: bv16)
    requires ValidText(q)
    ensures var d := WithText(q, BLANK.(port := port), name);
      && Consistent(q, d)
      && (PackAddress(q, d) == [ATYP_HOST, ToByte(|name|)] + name + PortBytes(port)
          <==> Trimmed(name) && q.parse(name) == None)
  {
    hide PortBytes, ToByte, Trim, Trimmed, PackAddress, WithText, ValidText;
    TrimIsTrimmed(name);
    PortRoundTrip(port);
    if q.parse(name) != None {
      PackSetLiteral(q, name, port);
    } else {
      PackSetName(q, name, port);
      if !Trimmed(name) {
        var t := Trim(name);
        assert |[ATYP_HOST, ToByte(|t|)] + t + PortBytes(port)| == 4 + |t| < 4 + |name|;
      }
    }
  }

  lemma PackSetLiteral(q: Text, name: Bytes, port: bv16)
    requires ValidText(q) && q.parse(name) != None
    ensures var d := WithText(q, BLANK.(port := port), name);
      Consistent(q, d) && |PackAddress(q, d)| > 0 && PackAddress(q, d)[0] != ATYP_HOST
  {
    hide PortBytes, V4Bytes, Trim;
  }

  lemma PackSetName(q: Text, name: Bytes, port: bv16)
    requires ValidText(q) && q.parse(name) == None
    ensures var d := WithText(q, BLANK.(port := port), name);
      Consistent(q, d) && PackAddress(q, d) == [ATYP_HOST, ToByte(|Trim(name)|)] + Trim(name) + PortBytes(port)
  {
    hide PortBytes, ToByte, Trim, Trimmed;
    TrimIsTrimmed(name);
  }

  lemma ParseThenPackIP(q: Text, data: Bytes, junk: Byte)
    requires ValidText(q) && At(data, 0) & 0x0f != ATYP_HOST
    requires ParseHeader(q, data, junk).Header?
    requires Consistent(q, ParseHeader(q, data, junk).dest)
    ensures var h := ParseHeader(q, data, junk);
      && 0 < h.len <= |data|
      && PackAddress(q, h.dest) == [data[0] & 0x0f] + data[1..h.len]
  {
    hide PortBytes, PortOf, V4Bytes, V4Of;
    var h := ParseHeader(q, data, junk);
    PortBytesOf(data[h.len - 2], data[h.len - 1]);
    if h.len == 7 {
      V4BytesOf(data[1], data[2], data[3], data[4]);
      assert data[1..7] == [data[1], data[2], data[3], data[4]] + [data[5], data[6]];
    } else {
      assert data[1..19] == data[1..17] + [data[17], data[18]];
    }
  }

  // ----- Complete headers, packed by whatever program -----

  /** head is a header and nothing else. */
  predicate IsHeader(q: Text, head: Bytes) {
    ParseHeader(q, head, 0).Header? && ParseHeader(q, head, 0).len == |head|
  }

  /** The address it holds. */
  function Destination(q: Text, head: Bytes): Endpoint
    requires IsHeader(q, head)
  {
    ParseHeader(q, head, 0).dest
  }

  /** A complete header reads the same whatever follows it, in the data or in memory. */
  lemma HeaderThenParse(q: Text, head: Bytes, x: Bytes, junk: Byte)
    requires IsHeader(q, head)
    ensures ParseHeader(q, head + x, junk) == Header(Destination(q, head), |head|)
    ensures head != []
  {
    hide PortOf, V4Of, Value, WithText, WithIP;
    if head == [] {
      NothingParsed(q, 0);
    }
    var data := head + x;
    assert data[..|head|] == head && data[0] == head[0];
    if head[0] & 0x0f == ATYP_HOST {
      assert data[2..2 + Value(head[1])] == head[2..2 + Value(head[1])];
    } else if head[0] & 0x0f == ATYP_IPV6 {
      assert data[1..17] == head[1..17];
    }
  }

  // The wire format in numbers, as in section 5 of RFC 1928.

  lemma PackedV4(a: Byte, b: Byte, c: Byte, d: Byte, hi: Byte, lo: Byte)
    ensures PackIP(V4((a as bv32) * 0x100_0000 + (b as bv32) * 0x1_0000 + (c as bv32) * 0x100 + (d as bv32)),
                   (hi as bv16) * 0x100 + (lo as bv16))
         == [1, a, b, c, d, hi, lo]
  {
    PackedPort(hi, lo);
    hide PortBytes;
  }

  lemma PackedV6(ip: Bytes16, hi: Byte, lo: Byte)
    ensures PackIP(V6(ip), (hi as bv16) * 0x100 + (lo as bv16)) == [4] + ip + [hi, lo]
  {
    PackedPort(hi, lo);
    hide PortBytes;
  }

  lemma PackedHost(q: Text, a: Endpoint, len: Byte, hi: Byte, lo: Byte)
    requires Consistent(q, a) && q.parse(a.text) == None
    requires |a.text| == Value(len) && a.port == (hi as bv16) * 0x100 + (lo as bv16)
    ensures PackAddress(q, a) == [3, len] + a.text + [hi, lo]
  {
    hide PortBytes, Value, ToByte, Trimmed;
    PackedPort(hi, lo);
    ByteOfValue(|a.text|, len);
  }

  lemma PackedPort(hi: Byte, lo: Byte)
    ensures PortBytes((hi as bv16) * 0x100 + (lo as bv16)) == [hi, lo]
  {
  }

  /** Addresses whose packed header reads back. */
  predicate Packable(q: Text, a: Endpoint) {
    Consistent(q, a) && (AddressType(q, a) == HOST ==> |a.text| < 0x100)
  }

  /** What packAddress makes of them is complete. */
  lemma PackedIsHeader(q: Text, a: Endpoint)
    requires Packable(q, a)
    ensures IsHeader(q, PackAddress(q, a)) && Destination(q, PackAddress(q, a)) == Canonical(q, a)
  {
    hide ParseHeader, PackAddress, Canonical;
    PackThenParse(q, a, [], 0);
    assert PackAddress(q, a) + [] == PackAddress(q, a);
  }

  /** So is a request's header for any name that fits the length byte, a literal or with white space around it too. */
  lemma {:induction false} NameIsHeader(q: Text, kind: Byte, len: Byte, name: Bytes, port: bv16)
    requires kind & 0x0f == ATYP_HOST && |name| == Value(len)
    ensures var head := [kind, len] + name + PortBytes(port);
      && IsHeader(q, head)
      && Destination(q, head) == Endpoint(Trim(name), port, match q.parse(name) case None => [] case Some(ip) => [ip])
  {
    hide PortBytes, PortOf, Value, ParseHeader, Trim;
    PortRoundTrip(port);
    NameParts(kind, len, name, PortBytes(port));
    ParseName(q, [kind, len] + name + PortBytes(port), 0);
  }

  lemma NameParts(kind: Byte, len: Byte, name: Bytes, port: Bytes)
    requires |port| == 2
    ensures var n, head := |name|, [kind, len] + name + port;
      && |head| == 4 + n && head[0] == kind && head[1] == len && head[2..2 + n] == name
      && head[2 + n] == port[0] && head[3 + n] == port[1]
  {
  }

  lemma ParseName(q: Text, head: Bytes, junk: Byte)
    requires |head| >= 4 && head[0] & 0x0f == ATYP_HOST && |head| == 4 + Value(head[1])
    ensures var n := Value(head[1]);
      ParseHeader(q, head, junk)
      == Header(WithText(q, BLANK.(port := PortOf(head[2 + n], head[3 + n])), head[2..2 + n]), |head|)
  {
    hide PortOf, Value, WithText;
  }

  // ----- Headers cut short -----

  /** A cut that parseHeader does not notice: the name is complete and at least one byte of it or its port came. */
  predicate CutUnnoticed(head: Bytes, n: nat) {
    At(head, 0) & 0x0f == ATYP_HOST && n > 2 && n >= 2 + Value(At(head, 1))
  }

  /** The port read when none or one of its two bytes came. */
  function MisreadPort(head: Bytes, n: nat, junk: Byte): bv16
    requires 0 < n <= |head|
  {
    if n + 2 == |head| then PortOf(0, junk) else PortOf(head[n - 1], 0)
  }

  /**
   A proper prefix of a complete header is accepted if and only if it is a name's and holds the whole name,
   never the whole port. The length reported is that of the complete header, the port is misread.
   */
  lemma CutHeader(q: Text, head: Bytes, n: nat, junk: Byte)
    requires IsHeader(q, head) && n < |head|
    ensures var h := ParseHeader(q, head[..n], junk);
      && (h.Header? <==> CutUnnoticed(head, n))
      && (h.Header? ==> n > 0 && h == Header(Destination(q, head).(port := MisreadPort(head, n, junk)), |head|))
  {
    hide PortOf, V4Of, Value, Trim;
    var data := head[..n];
    if n == 0 {
      NothingParsed(q, junk);
    } else {
      assert data[0] == head[0];
      if CutUnnoticed(head, n) {
        SliceOfCut(head, n, Value(head[1]));
      }
    }
  }

  lemma SliceOfCut(head: Bytes, n: nat, m: nat)
    requires 2 + m <= n <= |head|
    ensures head[..n][2..2 + m] == head[2..2 + m]
  {
  }

  lemma NothingParsed(q: Text, junk: Byte)
    ensures ParseHeader(q, [], junk) == NoHeader
  {
    assert 0 as Byte & 0x0f == 0;
  }

  /** The reported length lies within the data if and only if, for a name, the data holds name and port. */
  lemma AcceptedWithin(q: Text, data: Bytes, junk: Byte)
    requires ParseHeader(q, data, junk).Header?
    ensures data != []
    ensures ParseHeader(q, data, junk).len <= |data|
       <==> (data[0] & 0x0f == ATYP_HOST ==> |data| > 1 && |data| >= 4 + Value(data[1]))
  {
    hide Value, PortOf, V4Of, Trim;
    if data == [] {
      NothingParsed(q, junk);
    }
  }

  // ----- The Address object -----

  class Address {
    const q: Text
    var text: Bytes
    var port: bv16
    var ips: seq<IP>

    ghost function View(): Endpoint
      reads this
    {
      Endpoint(text, port, ips)
    }

    ghost predicate Valid()
      reads this
    {
      ValidText(q) && Consistent(q, View())
    }

    /** The default address: no name, port 0. */
    constructor (q: Text)
      requires ValidText(q)
      ensures Valid() && fresh(this) && this.q == q
      ensures View() == BLANK
    {
      this.q := q;
      text, port, ips := [], 0, [];
    }

    constructor FromIP(q: Text, ip: IP, port: bv16)
      requires ValidText(q)
      ensures Valid() && fresh(this) && this.q == q
      ensures View() == Endpoint(q.show(ip), port, [ip])
    {
      this.q := q;
      this.text, this.port, this.ips := q.show(ip), port, [ip];
    }

    constructor Copy(o: Address)
      requires o.Valid()
      ensures Valid() && fresh(this) && q == o.q
      ensures View() == o.View()
    {
      q := o.q;
      text, port, ips := o.text, o.port, o.ips;
    }

    method SetAddress(s: Bytes)
      requires Valid()
      modifies this
      ensures Valid() && View() == WithText(q, old(View()), s)
    {
      text := Trim(s);
      TrimIsTrimmed(s);
      ips := [];
      var ip := q.parse(s);
      if ip.Some? {
        ips := ips + [ip.value];
      }
    }

    method SetIPAddress(ip: IP)
      requires Valid()
      modifies this
      ensures Valid() && View() == WithIP(q, old(View()), ip)
    {
      ips := [];
      ips := ips + [ip];
      text := q.show(ip);
    }

    method SetPort(p: bv16)
      requires Valid()
      modifies this
      ensures Valid() && View() == old(View()).(port := p)
    {
      port := p;
    }

    predicate IsIPValid()
      reads this
    {
      ips != []
    }

    /** With an IP at hand the lookedUp signal is emitted at once; otherwise a lookup starts. */
    method LookUp() returns (immediate: bool)
      ensures immediate == IsIPValid()
    {
      immediate := IsIPValid();
    }

    /** The answer of a lookup this address started: nothing on an error. */
    method OnLookUpFinished(answer: Option<seq<IP>>) returns (success: bool)
      requires Valid() && q.parse(text) == None
      modifies this
      ensures Valid()
      ensures success == answer.Some?
      ensures View() == if answer.Some? then old(View()).(ips := answer.value) else old(View())
    {
      success := answer.Some?;
      if success {
        ips := answer.value;
      }
    }
  }

  /** parseHeader: writes its result into dest and returns the header length, 0 for none. */
  method ParseInto(data: Bytes, dest: Address, junk: Byte) returns (headerLength: nat)
    requires dest.Valid()
    modifies dest
    ensures dest.Valid()
    ensures match ParseHeader(dest.q, data, junk)
            case NoHeader => headerLength == 0 && dest.View() == old(dest.View())
            case Header(d, n) => headerLength == n > 0 && dest.View() == d
  {
    hide PortOf, V4Of, Value, Trim;
    var kind := At(data, 0) & 0x0f;
    headerLength := 0;
    if kind == ATYP_HOST {
      if |data| > 2 {
        var n := Value(data[1]);
        if |data| >= 2 + n {
          assert Mid(data, 2, n) == data[2..2 + n];
          dest.SetPort(PortOf(Peek(data, 2 + n, junk), Peek(data, 3 + n, junk)));
          dest.SetAddress(Mid(data, 2, n));
          headerLength := 4 + n;
        }
      }
    } else if kind == ATYP_IPV4 {
      if |data| >= 7 {
        headerLength := 7;
        dest.SetIPAddress(V4(V4Of(data[1], data[2], data[3], data[4])));
        dest.SetPort(PortOf(data[5], data[6]));
      }
    } else if kind == ATYP_IPV6 {
      if |data| >= 19 {
        headerLength := 19;
        dest.SetIPAddress(V6(data[1..17]));
        dest.SetPort(PortOf(data[17], data[18]));
      }
    }
  }
}
