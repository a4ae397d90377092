/**
 Chunk authentication: the framing a sender prints, the recursive parser it is the inverse of, and the
 incremental reassembler that refines the parser.
 */
module Chunks {
  import opened Bits
  import opened ByteStrings
  import opened Streams

  const HEAD := 2 + AUTH_LEN
  const ID_LIMIT := 0x1_0000_0000

  function NextId(id: nat): nat {
    (id + 1) % ID_LIMIT
  }

  function ChunkTag(p: Profile, iv: Bytes, id: nat, chunk: Bytes): Tag {
    p.hmac(iv + BE32(id), chunk)
  }

  /** What addChunkAuth makes of a chunk: a 16-bit length, the tag, the chunk. */
  function Frame(p: Profile, iv: Bytes, id: nat, chunk: Bytes): Bytes {
    BE16(|chunk|) + ChunkTag(p, iv, id, chunk) + chunk
  }

  /** s is n modulo 2^32 in four bytes, the highest first. */
  predicate IsCounter(s: Bytes, n: nat) {
    && |s| == 4
    && Value(s[0]) == n / 0x100_0000 % 0x100 && Value(s[1]) == n / 0x1_0000 % 0x100
    && Value(s[2]) == n / 0x100 % 0x100 && Value(s[3]) == n % 0x100
  }

  /** The counter goes into the tag in this form. */
  lemma CounterBytes(n: nat, s: Bytes)
    ensures BE32(n) == s <==> IsCounter(s, n)
  {
    hide Value, ToByte;
    ValueOfByte(n / 0x1_0000 / 0x100);
    ValueOfByte(n / 0x1_0000);
    ValueOfByte(n / 0x100);
    ValueOfByte(n);
    if IsCounter(s, n) {
      SameValue(BE32(n)[0], s[0]);
      SameValue(BE32(n)[1], s[1]);
      SameValue(BE32(n)[2], s[2]);
      SameValue(BE32(n)[3], s[3]);
    }
  }

  /** The layout of a frame: the length's two bytes, the highest first, then the tag, then the chunk. */
  lemma FrameLayout(p: Profile, iv: Bytes, id: nat, chunk: Bytes, counter: Bytes)
    requires IsCounter(counter, id)
    ensures var f := Frame(p, iv, id, chunk);
      && |f| == 12 + |chunk|
      && Value(f[0]) == |chunk| / 0x100 % 0x100 && Value(f[1]) == |chunk| % 0x100
      && f[2..12] == p.hmac(iv + counter, chunk) && f[12..] == chunk
  {
    hide Value, ToByte, BE32, IsCounter;
    CounterBytes(id, counter);
    ValueOfByte(|chunk| / 0x100);
    ValueOfByte(|chunk|);
  }

  function Frames(p: Profile, iv: Bytes, id: nat, chunks: seq<Bytes>): Bytes
    decreases chunks
  {
    if chunks == [] then [] else Frame(p, iv, id, chunks[0]) + Frames(p, iv, NextId(id), chunks[1..])
  }

  /** The counter after n more chunks. */
  function IdAfter(id: nat, n: nat): nat
    decreases n
  {
    if n == 0 then id else IdAfter(NextId(id), n - 1)
  }

  lemma {:induction false} IdAfterExact(id: nat, n: nat)
    requires id < ID_LIMIT
    ensures IdAfter(id, n) == (id + n) % 0x1_0000_0000
    decreases n
  {
    if n != 0 {
      IdAfterExact(NextId(id), n - 1);
      StepModulo(id, n - 1);
    }
  }

  lemma StepModulo(id: nat, n: nat)
    ensures ((id + 1) % ID_LIMIT + n) % ID_LIMIT == (id + 1 + n) % ID_LIMIT
  {
  }

  function ChunkLength(data: Bytes): nat {
    FromBE16(At(data, 0), At(data, 1))
  }

  /** data starts with a whole frame. */
  predicate Complete(data: Bytes) {
    data != [] && |data| - HEAD >= ChunkLength(data)
  }

  predicate Authentic(p: Profile, iv: Bytes, id: nat, data: Bytes)
    requires Complete(data)
  {
    ChunkTag(p, iv, id, data[HEAD..HEAD + ChunkLength(data)]) == data[2..HEAD]
  }

  /** A frame is authentic if its ten bytes behind the length are that tag of the chunk behind them. */
  lemma AuthenticExactly(p: Profile, iv: Bytes, id: nat, data: Bytes, counter: Bytes)
    requires IsCounter(counter, id) && Complete(data)
    ensures var n := Value(data[0]) * 0x100 + Value(data[1]);
      && |data| >= 12 + n
      && (Authentic(p, iv, id, data) <==> p.hmac(iv + counter, data[12..12 + n]) == data[2..12])
  {
    hide Value, BE32, IsCounter;
    CounterBytes(id, counter);
  }

  datatype Parsed = Parsed(chunks: seq<Bytes>, rest: Bytes, id: nat, ok: bool)

  /** The reference parser. A bad tag ends it, uses up a counter value and loses what follows. */
  function Parse(p: Profile, iv: Bytes, id: nat, data: Bytes): Parsed
    decreases |data|
  {
    if !Complete(data) then Parsed([], data, id, true)
    else if !Authentic(p, iv, id, data) then Parsed([], [], NextId(id), false)
    else
      var len := ChunkLength(data);
      Prepend(data[HEAD..HEAD + len], Parse(p, iv, NextId(id), data[HEAD + len..]))
  }

  function Prepend(chunk: Bytes, r: Parsed): Parsed {
    r.(chunks := [chunk] + r.chunks)
  }

  /** First r, then q on what r left over. */
  function Join(r: Parsed, q: Parsed): Parsed {
    q.(chunks := r.chunks + q.chunks)
  }

  lemma PrependJoin(chunk: Bytes, r: Parsed, q: Parsed)
    ensures Join(Prepend(chunk, r), q) == Prepend(chunk, Join(r, q))
  {
    assert [chunk] + r.chunks + q.chunks == [chunk] + (r.chunks + q.chunks);
  }

  /** One verifyExtractChunkAuth call: what it delivers, keeps and answers. */
  function Extract(p: Profile, iv: Bytes, incomplete: Bytes, id: nat, data: Bytes): Parsed {
    Parse(p, iv, id, incomplete + data)
  }

  /** Successive calls; ok says that all of them succeeded. */
  datatype Fed = Fed(output: Bytes, incomplete: Bytes, id: nat, ok: bool)

  function Feed(p: Profile, iv: Bytes, incomplete: Bytes, id: nat, frags: seq<Bytes>): Fed {
    if frags == [] then Fed([], incomplete, id, true)
    else
      var f := Feed(p, iv, incomplete, id, Front(frags));
      var r := Extract(p, iv, f.incomplete, f.id, Last(frags));
      Fed(f.output + Flatten(r.chunks), r.rest, r.id, f.ok && r.ok)
  }

  // ----- Fragmentation does not matter -----

  lemma CompleteMonotone(a: Bytes, b: Bytes)
    requires Complete(a)
    ensures Complete(a + b) && ChunkLength(a + b) == ChunkLength(a)
    ensures var n := HEAD + ChunkLength(a);
      (a + b)[HEAD..n] == a[HEAD..n] && (a + b)[2..HEAD] == a[2..HEAD] && (a + b)[n..] == a[n..] + b
  {
    hide BE16, FromBE16, BE32;
  }

  /** Parsing may stop anywhere and resume with the leftover. */
  lemma {:induction false} ParseResumes(p: Profile, iv: Bytes, id: nat, a: Bytes, b: Bytes)
    ensures var r := Parse(p, iv, id, a);
      Parse(p, iv, id, a + b) == if r.ok then Join(r, Parse(p, iv, r.id, r.rest + b)) else r
    decreases |a|
  {
    hide BE16, FromBE16, BE32, ChunkLength, ChunkTag, Prepend, Join, NextId;
    if !Complete(a) {
      JoinNothing(a, id, Parse(p, iv, id, a + b));
    } else {
      CompleteMonotone(a, b);
      if Authentic(p, iv, id, a) {
        var len := ChunkLength(a);
        var chunk, more := a[HEAD..HEAD + len], a[HEAD + len..];
        var t := Parse(p, iv, NextId(id), more);
        ParseResumes(p, iv, NextId(id), more, b);
        PrependKeeps(chunk, t);
        if t.ok {
          PrependJoin(chunk, t, Parse(p, iv, t.id, t.rest + b));
        }
      }
    }
  }

  lemma JoinNothing(a: Bytes, id: nat, q: Parsed)
    ensures Join(Parsed([], a, id, true), q) == q
  {
    assert [] + q.chunks == q.chunks;
  }

  lemma PrependKeeps(chunk: Bytes, r: Parsed)
    ensures Prepend(chunk, r).ok == r.ok && Prepend(chunk, r).id == r.id && Prepend(chunk, r).rest == r.rest
  {
  }

  lemma {:induction false} ParseLeftover(p: Profile, iv: Bytes, id: nat, data: Bytes)
    ensures !Complete(Parse(p, iv, id, data).rest)
    decreases |data|
  {
    hide BE16, FromBE16, BE32;
    if Complete(data) && Authentic(p, iv, id, data) {
      ParseLeftover(p, iv, NextId(id), data[HEAD + ChunkLength(data)..]);
    }
  }

  lemma ParseCases(p: Profile, iv: Bytes, id: nat, data: Bytes)
    ensures Parse(p, iv, id, data) ==
      if !Complete(data) then Parsed([], data, id, true)
      else if !Authentic(p, iv, id, data) then Parsed([], [], NextId(id), false)
      else Prepend(data[HEAD..HEAD + ChunkLength(data)],
                   Parse(p, iv, NextId(id), data[HEAD + ChunkLength(data)..]))
  {
    hide ChunkTag, ChunkLength, Prepend;
  }

  lemma NotComplete()
    ensures !Complete([])
  {
  }

  lemma ParseNothing(p: Profile, iv: Bytes, id: nat, data: Bytes)
    requires !Complete(data)
    ensures Parse(p, iv, id, data) == Parsed([], data, id, true)
  {
  }

  /**
   Reassembly refines the parser: the calls all succeed exactly when the concatenated input parses, and
   then output, leftover and counter are the parser's, however the input was cut.
   */
  lemma {:induction false} FeedIsParse(p: Profile, iv: Bytes, incomplete: Bytes, id: nat, frags: seq<Bytes>)
    requires !Complete(incomplete)
    ensures var f, r := Feed(p, iv, incomplete, id, frags), Parse(p, iv, id, incomplete + Flatten(frags));
      && (f.ok <==> r.ok)
      && (f.ok ==> f == Fed(Flatten(r.chunks), r.rest, r.id, true))
  {
    hide Parse;
    if frags == [] {
      assert incomplete + Flatten(frags) == incomplete;
      ParseNothing(p, iv, id, incomplete);
    } else {
      FeedIsParse(p, iv, incomplete, id, Front(frags));
      FeedStep(p, iv, incomplete, id, frags);
    }
  }

  /** The last call continues where the parse of everything before it stopped. */
  lemma FeedStep(p: Profile, iv: Bytes, incomplete: Bytes, id: nat, frags: seq<Bytes>)
    requires frags != []
    ensures var before := Parse(p, iv, id, incomplete + Flatten(Front(frags)));
      var q := Parse(p, iv, before.id, before.rest + Last(frags));
      && Parse(p, iv, id, incomplete + Flatten(frags)) == (if before.ok then Join(before, q) else before)
      && Flatten(Join(before, q).chunks) == Flatten(before.chunks) + Flatten(q.chunks)
  {
    hide Parse;
    var front, last := Front(frags), Last(frags);
    FlattenFront(frags);
    assert incomplete + Flatten(frags) == incomplete + Flatten(front) + last;
    ParseResumes(p, iv, id, incomplete + Flatten(front), last);
    var before := Parse(p, iv, id, incomplete + Flatten(front));
    FlattenConcat(before.chunks, Parse(p, iv, before.id, before.rest + last).chunks);
  }

  /** The first failing call delivers exactly what precedes the first bad tag in the whole input. */
  lemma FirstFailure(p: Profile, iv: Bytes, incomplete: Bytes, id: nat, frags: seq<Bytes>)
    requires !Complete(incomplete) && frags != []
    requires Feed(p, iv, incomplete, id, Front(frags)).ok && !Feed(p, iv, incomplete, id, frags).ok
    ensures var f, r := Feed(p, iv, incomplete, id, frags), Parse(p, iv, id, incomplete + Flatten(frags));
      f == Fed(Flatten(r.chunks), [], r.id, false)
  {
    hide Parse;
    FeedIsParse(p, iv, incomplete, id, Front(frags));
    FeedStep(p, iv, incomplete, id, frags);
    FailedRest(p, iv, id, incomplete + Flatten(frags));
  }

  lemma {:induction false} FailedRest(p: Profile, iv: Bytes, id: nat, data: Bytes)
    ensures !Parse(p, iv, id, data).ok ==> Parse(p, iv, id, data).rest == []
    decreases |data|
  {
    hide BE16, FromBE16, BE32;
    if Complete(data) && Authentic(p, iv, id, data) {
      FailedRest(p, iv, NextId(id), data[HEAD + ChunkLength(data)..]);
    }
  }

  // ----- The parser inverts the printer -----

  lemma FrameParts(p: Profile, iv: Bytes, id: nat, chunk: Bytes, tail: Bytes)
    ensures var f, x := Frame(p, iv, id, chunk), Frame(p, iv, id, chunk) + tail;
      && |f| == HEAD + |chunk|
      && ChunkLength(x) == |chunk| % 0x1_0000
      && x[2..HEAD] == ChunkTag(p, iv, id, chunk)
      && x[HEAD..HEAD + |chunk|] == chunk
      && x[HEAD + |chunk|..] == tail
  {
    hide BE16, FromBE16, BE32;
    BE16Exact(|chunk|);
    var x := Frame(p, iv, id, chunk) + tail;
    assert x[0] == BE16(|chunk|)[0] && x[1] == BE16(|chunk|)[1];
  }

  predicate FitsAll(chunks: seq<Bytes>) {
    forall i :: 0 <= i < |chunks| ==> |chunks[i]| < 0x1_0000
  }

  lemma {:induction false} ParseFrames(p: Profile, iv: Bytes, id: nat, chunks: seq<Bytes>, tail: Bytes)
    requires FitsAll(chunks) && !Complete(tail)
    ensures Parse(p, iv, id, Frames(p, iv, id, chunks) + tail)
         == Parsed(chunks, tail, IdAfter(id, |chunks|), true)
    decreases chunks
  {
    hide Parse, Frame, Frames, ChunkTag, ChunkLength, IdAfter;
    if chunks == [] {
      NoFrames(p, iv, id);
      assert Frames(p, iv, id, chunks) + tail == tail;
      NoneAfter(id);
      ParseNothing(p, iv, id, tail);
    } else {
      var c, rest := chunks[0], chunks[1..];
      assert chunks == [c] + rest;
      MoreFrames(p, iv, id, c, rest);
      Regroup(Frame(p, iv, id, c), Frames(p, iv, NextId(id), rest), tail);
      ParseFrame(p, iv, id, c, Frames(p, iv, NextId(id), rest) + tail);
      ParseFrames(p, iv, NextId(id), rest, tail);
      OneAfter(id, |chunks|);
    }
  }

  lemma ParseFrame(p: Profile, iv: Bytes, id: nat, chunk: Bytes, more: Bytes)
    requires |chunk| < 0x1_0000
    ensures Parse(p, iv, id, Frame(p, iv, id, chunk) + more) == Prepend(chunk, Parse(p, iv, NextId(id), more))
  {
    hide Frame, ChunkTag, ChunkLength;
    FrameParts(p, iv, id, chunk, more);
  }

  lemma Regroup(a: Bytes, b: Bytes, c: Bytes)
    ensures a + b + c == a + (b + c)
    ensures (a + (b + c))[|a + b|..] == c
    ensures a + b <= a + (b + c)
  {
  }

  lemma NoneAfter(id: nat)
    ensures IdAfter(id, 0) == id
  {
  }

  lemma OneAfter(id: nat, n: nat)
    requires n > 0
    ensures IdAfter(id, n) == IdAfter(NextId(id), n - 1)
  {
  }

  /** A single frame reads back exactly when its chunk's length fits the 16-bit field. */
  lemma FrameReadsBackExactly(p: Profile, iv: Bytes, id: nat, chunk: Bytes)
    ensures Parse(p, iv, id, Frame(p, iv, id, chunk)) == Parsed([chunk], [], NextId(id), true)
       <==> |chunk| < 0x1_0000
  {
    hide BE16, FromBE16, BE32;
    var f := Frame(p, iv, id, chunk);
    assert f + [] == f;
    FrameParts(p, iv, id, chunk, []);
    if |chunk| < 0x1_0000 {
      assert f[HEAD + |chunk|..] == [];
    } else if Complete(f) && Authentic(p, iv, id, f) {
      assert |Parse(p, iv, id, f).chunks[0]| == ChunkLength(f) < 0x1_0000;
    }
  }

  /** Where a prefix of the wire ends: how many whole frames it holds. */
  function WholeFrames(p: Profile, iv: Bytes, id: nat, chunks: seq<Bytes>, n: nat): (k: nat)
    ensures k <= |chunks|
    decreases chunks
  {
    if chunks == [] || n < |Frame(p, iv, id, chunks[0])| then 0
    else 1 + WholeFrames(p, iv, NextId(id), chunks[1..], n - |Frame(p, iv, id, chunks[0])|)
  }

  lemma {:induction false} WirePrefix(p: Profile, iv: Bytes, id: nat, chunks: seq<Bytes>, n: nat)
    requires FitsAll(chunks) && n <= |Frames(p, iv, id, chunks)|
    ensures var k, wire := WholeFrames(p, iv, id, chunks, n), Frames(p, iv, id, chunks);
      && Frames(p, iv, id, chunks[..k]) <= wire[..n]
      && !Complete(wire[..n][|Frames(p, iv, id, chunks[..k])|..])
      && (n == |wire| ==> k == |chunks|)
    decreases chunks
  {
    hide Frame, Frames, ChunkLength;
    var wire := Frames(p, iv, id, chunks);
    NoFrames(p, iv, id);
    if chunks == [] {
      assert chunks[..0] == [];
    } else {
      var c, rest := chunks[0], chunks[1..];
      var f, more := Frame(p, iv, id, c), Frames(p, iv, NextId(id), rest);
      assert chunks == [c] + rest;
      MoreFrames(p, iv, id, c, rest);
      FrameParts(p, iv, id, c, []);
      if n < |f| {
        assert chunks[..0] == [];
        assert wire[..n][0..] == f[..n];
        FrameCutShort(p, iv, id, c, n);
      } else {
        var k := WholeFrames(p, iv, NextId(id), rest, n - |f|);
        WirePrefix(p, iv, NextId(id), rest, n - |f|);
        assert chunks[..k + 1] == [c] + rest[..k];
        MoreFrames(p, iv, id, c, rest[..k]);
        var done := Frames(p, iv, NextId(id), rest[..k]);
        assert wire[..n] == f + more[..n - |f|];
        assert more[..n - |f|] == done + more[..n - |f|][|done|..];
        Regroup(f, done, more[..n - |f|][|done|..]);
      }
    }
  }

  lemma FrameCutShort(p: Profile, iv: Bytes, id: nat, chunk: Bytes, n: nat)
    requires |chunk| < 0x1_0000 && n < |Frame(p, iv, id, chunk)|
    ensures !Complete(Frame(p, iv, id, chunk)[..n])
  {
    hide FromBE16, BE16, BE32, ChunkTag;
    var f := Frame(p, iv, id, chunk);
    FrameParts(p, iv, id, chunk, []);
    assert f + [] == f;
    if n >= 2 {
      assert ChunkLength(f[..n]) == ChunkLength(f);
    }
  }

  /**
   Chunk round trip: after any prefix of the framed stream, cut anywhere, every call has succeeded, the
   output is the chunks whose frames are complete, and exactly the rest is kept.
   */
  lemma ChunkRoundTrip(p: Profile, iv: Bytes, id: nat, chunks: seq<Bytes>, frags: seq<Bytes>)
    requires FitsAll(chunks)
    requires Flatten(frags) <= Frames(p, iv, id, chunks)
    ensures var f := Feed(p, iv, [], id, frags);
      var k := WholeFrames(p, iv, id, chunks, |Flatten(frags)|);
      && f.ok
      && f.output == Flatten(chunks[..k])
      && Frames(p, iv, id, chunks[..k]) + f.incomplete == Flatten(frags)
      && f.id == IdAfter(id, k)
      && (Flatten(frags) == Frames(p, iv, id, chunks) ==> k == |chunks| && f.incomplete == [])
  {
    hide Parse, Feed, Frames, Complete, WholeFrames, FitsAll, IdAfter;
    var got, wire := Flatten(frags), Frames(p, iv, id, chunks);
    var k := WholeFrames(p, iv, id, chunks, |got|);
    NotComplete();
    FeedIsParse(p, iv, [], id, frags);
    assert [] + got == got == wire[..|got|];
    WirePrefix(p, iv, id, chunks, |got|);
    var done := Frames(p, iv, id, chunks[..k]);
    var tail := got[|done|..];
    assert got == done + tail;
    FitsPrefix(chunks, k);
    ParseFrames(p, iv, id, chunks[..k], tail);
    if got == wire {
      assert chunks[..k] == chunks;
    }
  }

  lemma FitsPrefix(chunks: seq<Bytes>, k: nat)
    requires FitsAll(chunks) && k <= |chunks|
    ensures FitsAll(chunks[..k])
  {
  }

  predicate BadFrame(p: Profile, iv: Bytes, id: nat, data: Bytes) {
    Complete(data) && !Authentic(p, iv, id, data)
  }

  /** What the parser accepts is what the printer prints, up to an unfinished frame or a bad one. */
  lemma {:induction false} ParseSound(p: Profile, iv: Bytes, id: nat, data: Bytes)
    ensures var r := Parse(p, iv, id, data);
      && FitsAll(r.chunks)
      && (r.ok ==> data == Frames(p, iv, id, r.chunks) + r.rest && !Complete(r.rest))
      && (!r.ok ==> Frames(p, iv, id, r.chunks) <= data
                    && BadFrame(p, iv, IdAfter(id, |r.chunks|), data[|Frames(p, iv, id, r.chunks)|..])
                    && r.rest == [])
      && r.id == IdAfter(id, if r.ok then |r.chunks| else |r.chunks| + 1)
    decreases |data|
  {
    hide Parse, Authentic, Frame, Frames, ChunkLength, IdAfter, BadFrame, FitsAll;
    ParseCases(p, iv, id, data);
    NoFrames(p, iv, id);
    var r := Parse(p, iv, id, data);
    if !Complete(data) {
      NothingFits();
      NoneAfter(id);
      assert Frames(p, iv, id, []) + data == data;
    } else if !Authentic(p, iv, id, data) {
      NothingFits();
      NoneAfter(id);
      OneAfter(id, 1);
      NoneAfter(NextId(id));
      IsBadFrame(p, iv, id, data);
      assert data[0..] == data;
    } else {
      var len := ChunkLength(data);
      FramePrints(p, iv, id, data);
      var chunk, more := data[HEAD..HEAD + len], data[HEAD + len..];
      var t := Parse(p, iv, NextId(id), more);
      ParseSound(p, iv, NextId(id), more);
      FitsMore(chunk, t.chunks);
      OneAfter(id, |r.chunks|);
      OneAfter(id, |r.chunks| + 1);
      MoreFrames(p, iv, id, chunk, t.chunks);
      var done := Frames(p, iv, NextId(id), t.chunks);
      var tail := if r.ok then t.rest else more[|done|..];
      assert more == done + tail;
      Regroup(Frame(p, iv, id, chunk), done, tail);
    }
  }

  lemma NothingFits()
    ensures FitsAll([])
  {
  }

  lemma FitsMore(chunk: Bytes, chunks: seq<Bytes>)
    requires |chunk| < 0x1_0000 && FitsAll(chunks)
    ensures FitsAll([chunk] + chunks)
  {
  }

  lemma NoFrames(p: Profile, iv: Bytes, id: nat)
    ensures Frames(p, iv, id, []) == []
  {
  }

  lemma MoreFrames(p: Profile, iv: Bytes, id: nat, chunk: Bytes, chunks: seq<Bytes>)
    ensures Frames(p, iv, id, [chunk] + chunks) == Frame(p, iv, id, chunk) + Frames(p, iv, NextId(id), chunks)
  {
    assert ([chunk] + chunks)[1..] == chunks;
  }

  lemma IsBadFrame(p: Profile, iv: Bytes, id: nat, data: Bytes)
    ensures BadFrame(p, iv, id, data) <==> Complete(data) && !Authentic(p, iv, id, data)
  {
  }

  /** An authentic frame is the printed form of its chunk. */
  lemma FramePrints(p: Profile, iv: Bytes, id: nat, data: Bytes)
    requires Complete(data) && Authentic(p, iv, id, data)
    ensures var chunk := data[HEAD..HEAD + ChunkLength(data)];
      |chunk| < 0x1_0000 && data == Frame(p, iv, id, chunk) + data[HEAD + |chunk|..]
  {
    hide BE16, FromBE16, BE32, ChunkTag;
    FromBE16Exact(data[0], data[1]);
    var chunk := data[HEAD..HEAD + ChunkLength(data)];
    assert BE16(|chunk|) == data[..2];
    assert data == data[..2] + data[2..HEAD] + chunk + data[HEAD + |chunk|..];
  }

  // ----- Leftovers in front of a new stream -----

  /** Behind a leftover a framed stream parses into its own chunks if and only if there is no leftover. */
  lemma LeftoverExactly(p: Profile, iv: Bytes, id: nat, left: Bytes, chunks: seq<Bytes>)
    requires FitsAll(chunks)
    ensures Parse(p, iv, id, left + Frames(p, iv, id, chunks)) == Parsed(chunks, [], IdAfter(id, |chunks|), true)
       <==> left == []
  {
    hide Parse, Frames, FitsAll, IdAfter, Complete;
    var frames := Frames(p, iv, id, chunks);
    if left == [] {
      NotComplete();
      assert left + frames == frames + [];
      ParseFrames(p, iv, id, chunks, []);
    } else {
      ParseSound(p, iv, id, left + frames);
      assert frames + [] == frames;
    }
  }

  /** One empty chunk already suffers from any leftover: the parse of it is not that of an empty chunk. */
  lemma LeftoverHarms(p: Profile, iv: Bytes, id: nat, left: Bytes)
    requires left != [] && !Complete(left)
    ensures var r := Parse(p, iv, id, left + Frame(p, iv, id, []));
      !(r.ok && r.rest == [] && Flatten(r.chunks) == [])
  {
    hide Parse, Frame, Frames, FitsAll, IdAfter, BadFrame;
    var data := left + Frame(p, iv, id, []);
    var r := Parse(p, iv, id, data);
    ParseSound(p, iv, id, data);
    EmptyFrame(p, iv, id);
    if r.ok && r.rest == [] && Flatten(r.chunks) == [] {
      assert data == Frames(p, iv, id, r.chunks);
      EmptyFrames(p, iv, id, r.chunks);
      assert data[0] == left[0] && (|left| > 1 ==> data[1] == left[1]);
      StartsComplete(left);
    }
  }

  lemma EmptyFrame(p: Profile, iv: Bytes, id: nat)
    ensures var f := Frame(p, iv, id, []);
      |f| == HEAD && f[0] == 0 && f[1] == 0
  {
    hide BE32;
    assert BE16(0) == [0, 0];
  }

  /** Frames of empty chunks only: all of one length, each beginning with length zero. */
  lemma {:induction false} EmptyFrames(p: Profile, iv: Bytes, id: nat, chunks: seq<Bytes>)
    requires Flatten(chunks) == []
    ensures var w := Frames(p, iv, id, chunks);
      |w| == HEAD * |chunks| && (chunks != [] ==> w[0] == 0 && w[1] == 0)
    decreases chunks
  {
    hide Frame;
    if chunks != [] {
      assert Flatten(chunks) == chunks[0] + Flatten(chunks[1..]);
      EmptyFrame(p, iv, id);
      EmptyFrames(p, iv, NextId(id), chunks[1..]);
    }
  }

  /** What is as long as the head of a frame and starts like an empty one is complete. */
  lemma StartsComplete(left: Bytes)
    requires |left| >= HEAD && left[0] == 0 && left[1] == 0
    ensures Complete(left)
  {
  }
}
