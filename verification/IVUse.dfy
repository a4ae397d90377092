/** Which draw of the random generator keys which encrypting cipher, over runs of an Encryptor. */
module IVUse {
  import opened ByteStrings
  import opened Streams

  datatype Op = EncryptOp | EncryptAllOp | ResetOp

  /** current: the draw held as next IV; drawn: draws so far; keyed: the draw behind each cipher created. */
  datatype Draws = Draws(current: nat, drawn: nat, live: bool, keyed: seq<nat>)

  const START := Draws(0, 1, false, [])

  function Step(d: Draws, op: Op): Draws {
    match op
    case EncryptOp => if d.live then d else d.(live := true, keyed := d.keyed + [d.current])
    case EncryptAllOp => Draws(d.drawn, d.drawn + 1, true, d.keyed + [d.current])
    case ResetOp => if d.live then Draws(d.drawn, d.drawn + 1, false, d.keyed) else d
  }

  function Run(ops: seq<Op>): Draws {
    if ops == [] then START else Step(Run(ops[..|ops| - 1]), ops[|ops| - 1])
  }

  lemma RunStep(ops: seq<Op>, op: Op)
    ensures Run(ops + [op]) == Step(Run(ops), op)
  {
    assert (ops + [op])[..|ops|] == ops;
  }

  predicate Distinct<T(==)>(s: seq<T>) {
    forall i, j :: 0 <= i < j < |s| ==> s[i] != s[j]
  }

  /** drawn holds the draws so far, keys the IVs of the ciphers created so far: each is the draw the log names. */
  predicate Logged(d: Draws, drawn: seq<Bytes>, keys: seq<Bytes>) {
    && |drawn| == d.drawn && |keys| == |d.keyed|
    && forall j :: 0 <= j < |keys| ==> d.keyed[j] < |drawn| && keys[j] == drawn[d.keyed[j]]
  }

  lemma LoggedStep(d: Draws, drawn: seq<Bytes>, keys: seq<Bytes>, op: Op, draw: Bytes)
    requires Logged(d, drawn, keys) && d.current < |drawn|
    ensures var made := if op == EncryptAllOp || (op == EncryptOp && !d.live) then [drawn[d.current]] else [];
      var drew := if op == EncryptAllOp || (op == ResetOp && d.live) then [draw] else [];
      Logged(Step(d, op), drawn + drew, keys + made)
  {
  }

  lemma LoggedDistinct(d: Draws, drawn: seq<Bytes>, keys: seq<Bytes>)
    requires Logged(d, drawn, keys)
    ensures Distinct(drawn) ==> (Distinct(keys) <==> Distinct(d.keyed))
  {
    if Distinct(drawn) {
      forall i, j | 0 <= i < j < |keys|
        ensures keys[i] == keys[j] <==> d.keyed[i] == d.keyed[j]
      {
        assert d.keyed[i] < d.keyed[j] ==> drawn[d.keyed[i]] != drawn[d.keyed[j]];
        assert d.keyed[j] < d.keyed[i] ==> drawn[d.keyed[j]] != drawn[d.keyed[i]];
      }
    }
  }

  /** Every earlier encrypting call is followed by a reset: a call at i finds no cipher. */
  predicate FindsNone(ops: seq<Op>, i: nat)
    requires i <= |ops|
  {
    forall k :: 0 <= k < i && ops[k] != ResetOp ==> exists r :: k < r < i && ops[r] == ResetOp
  }

  /** encrypt creates the cipher at i and only encrypt follows up to j. */
  predicate StreamSince(ops: seq<Op>, i: nat, j: nat)
    requires i < j <= |ops|
  {
    ops[i] == EncryptOp && FindsNone(ops, i) && forall k :: i < k < j ==> ops[k] == EncryptOp
  }

  /** Somewhere encryptAll is called on a cipher that encrypt created. */
  predicate Clash(ops: seq<Op>) {
    exists i, j :: 0 <= i < j < |ops| && StreamSince(ops, i, j) && ops[j] == EncryptAllOp
  }

  predicate Stale(ops: seq<Op>) {
    exists i :: 0 <= i < |ops| && StreamSince(ops, i, |ops|)
  }

  lemma FindsNoneLocal(a: seq<Op>, b: seq<Op>, i: nat)
    requires i <= |a| <= |b| && b[..|a|] == a
    ensures FindsNone(a, i) == FindsNone(b, i)
  {
    assert forall k :: 0 <= k < i ==> a[k] == b[k];
    if FindsNone(a, i) {
      forall k | 0 <= k < i && b[k] != ResetOp
        ensures exists r :: k < r < i && b[r] == ResetOp
      {
        var r :| k < r < i && a[r] == ResetOp;
        assert b[r] == ResetOp;
      }
    }
    if FindsNone(b, i) {
      forall k | 0 <= k < i && a[k] != ResetOp
        ensures exists r :: k < r < i && a[r] == ResetOp
      {
        var r :| k < r < i && b[r] == ResetOp;
        assert a[r] == ResetOp;
      }
    }
  }

  lemma StreamSinceLocal(a: seq<Op>, b: seq<Op>, i: nat, j: nat)
    requires i < j <= |a| <= |b| && b[..|a|] == a
    ensures StreamSince(a, i, j) == StreamSince(b, i, j)
  {
    assert forall k :: 0 <= k < j ==> a[k] == b[k];
    FindsNoneLocal(a, b, i);
  }

  lemma ClashStep(ops: seq<Op>, op: Op)
    ensures Clash(ops + [op]) <==> Clash(ops) || (op == EncryptAllOp && Stale(ops))
  {
    var b := ops + [op];
    assert b[..|ops|] == ops;
    if Clash(b) {
      var i, j :| 0 <= i < j < |b| && StreamSince(b, i, j) && b[j] == EncryptAllOp;
      StreamSinceLocal(ops, b, i, j);
    }
    if Clash(ops) {
      var i, j :| 0 <= i < j < |ops| && StreamSince(ops, i, j) && ops[j] == EncryptAllOp;
      StreamSinceLocal(ops, b, i, j);
      assert b[j] == EncryptAllOp;
    }
    if op == EncryptAllOp && Stale(ops) {
      var i :| 0 <= i < |ops| && StreamSince(ops, i, |ops|);
      StreamSinceLocal(ops, b, i, |ops|);
      assert b[|ops|] == EncryptAllOp;
    }
  }

  lemma StaleStep(ops: seq<Op>, op: Op)
    ensures Stale(ops + [op]) <==> op == EncryptOp && (Stale(ops) || FindsNone(ops, |ops|))
  {
    var b := ops + [op];
    assert b[..|ops|] == ops;
    if Stale(b) {
      var i :| 0 <= i < |b| && StreamSince(b, i, |b|);
      if i < |ops| {
        assert b[|ops|] == EncryptOp;
        assert StreamSince(b, i, |ops|);
        StreamSinceLocal(ops, b, i, |ops|);
      } else {
        FindsNoneLocal(ops, b, |ops|);
      }
    }
    if op == EncryptOp && Stale(ops) {
      var i :| 0 <= i < |ops| && StreamSince(ops, i, |ops|);
      StreamSinceLocal(ops, b, i, |ops|);
      assert StreamSince(b, i, |b|);
    } else if op == EncryptOp && FindsNone(ops, |ops|) {
      FindsNoneLocal(ops, b, |ops|);
      assert StreamSince(b, |ops|, |b|);
    }
  }

  lemma FindsNoneStep(ops: seq<Op>, op: Op)
    ensures FindsNone(ops + [op], |ops| + 1) <==> op == ResetOp
  {
    var b := ops + [op];
    assert b[|ops|] == op;
  }

  /** What a run keeps: the state reflects the calls made, and draws repeat only after a clash. */
  lemma {:induction false} RunFacts(ops: seq<Op>)
    ensures var d := Run(ops);
      && d.current < d.drawn
      && (forall i :: 0 <= i < |d.keyed| ==> d.keyed[i] <= d.current)
      && (!d.live <==> FindsNone(ops, |ops|))
      && (d.current in d.keyed <==> Stale(ops))
      && (Distinct(d.keyed) <==> !Clash(ops))
  {
    if ops != [] {
      var front, op := ops[..|ops| - 1], ops[|ops| - 1];
      RunFacts(front);
      assert ops == front + [op];
      ClashStep(front, op);
      StaleStep(front, op);
      FindsNoneStep(front, op);
      var d, e := Run(front), Run(ops);
      NoneMeansFresh(front);
      AppendDistinct(d.keyed, d.current);
    }
  }

  lemma NoneMeansFresh(ops: seq<Op>)
    ensures FindsNone(ops, |ops|) ==> !Stale(ops)
  {
  }

  lemma AppendDistinct<T>(s: seq<T>, x: T)
    ensures Distinct(s + [x]) <==> Distinct(s) && x !in s
  {
    var t := s + [x];
    if Distinct(t) {
      assert forall i :: 0 <= i < |s| ==> t[i] == s[i] && t[i] != t[|s|];
    }
  }

  // ----- The ciphers themselves -----

  /** A call with its data and the draw it makes if it makes one. */
  datatype Use = Use(op: Op, data: Bytes, draw: Bytes)

  /** The state after a run of calls, every draw, and the IV of every encrypting cipher created. */
  datatype Life = Life(s: EncState, drawn: seq<Bytes>, keys: seq<Bytes>)

  function Live(p: Profile, iv: Bytes, uses: seq<Use>): Life {
    if uses == [] then Life(EncState(iv, None, None, [], 0), [iv], [])
    else LiveStep(p, Live(p, iv, uses[..|uses| - 1]), uses[|uses| - 1])
  }

  function LiveStep(p: Profile, l: Life, u: Use): Life {
    match u.op
    case EncryptOp =>
      var t := Encrypt(p, l.s, u.data).0;
      Life(t, l.drawn, if l.s.en == None then l.keys + [t.en.value.iv] else l.keys)
    case EncryptAllOp =>
      var t := EncryptAll(p, l.s, u.data, u.draw).0;
      Life(t, l.drawn + [u.draw], l.keys + [t.en.value.iv])
    case ResetOp =>
      Life(Reset(l.s, u.draw), if l.s.en.Some? then l.drawn + [u.draw] else l.drawn, l.keys)
  }

  function Ops(uses: seq<Use>): (ops: seq<Op>)
    ensures |ops| == |uses|
  {
    seq(|uses|, i requires 0 <= i < |uses| => uses[i].op)
  }

  /** The log is that of the ciphers. */
  lemma {:induction false} LiveLogged(p: Profile, iv: Bytes, uses: seq<Use>)
    ensures var l, d := Live(p, iv, uses), Run(Ops(uses));
      && Logged(d, l.drawn, l.keys)
      && d.current < |l.drawn| && l.s.nextIV == l.drawn[d.current]
      && (d.live <==> l.s.en.Some?)
      && (d.live ==> l.keys != [] && l.s.en.value.iv == l.keys[|l.keys| - 1])
  {
    hide Mask, Logged;
    if uses == [] {
      assert Logged(START, [iv], []) by { NothingLogged(iv); }
    } else {
      var front, u := uses[..|uses| - 1], uses[|uses| - 1];
      LiveLogged(p, iv, front);
      assert Ops(uses) == Ops(front) + [u.op];
      RunStep(Ops(front), u.op);
      var l := Live(p, iv, front);
      LoggedStep(Run(Ops(front)), l.drawn, l.keys, u.op, u.draw);
      assert l.drawn + [] == l.drawn && l.keys + [] == l.keys;
    }
  }

  lemma NothingLogged(iv: Bytes)
    ensures Logged(START, [iv], [])
  {
  }

  /**
   Over any history of calls: no draw keys two encrypting ciphers, and if the draws differ no two of these
   ciphers have the same IV, exactly when encryptAll never follows a stream's encrypt.
   */
  lemma NoReuseExactly(p: Profile, iv: Bytes, uses: seq<Use>)
    ensures var l, d := Live(p, iv, uses), Run(Ops(uses));
      && Logged(d, l.drawn, l.keys)
      && (Distinct(d.keyed) <==> !Clash(Ops(uses)))
      && (Distinct(l.drawn) ==> (Distinct(l.keys) <==> !Clash(Ops(uses))))
  {
    hide Distinct, Logged, Clash;
    RunFacts(Ops(uses));
    LiveLogged(p, iv, uses);
    var l := Live(p, iv, uses);
    LoggedDistinct(Run(Ops(uses)), l.drawn, l.keys);
  }

  /** The two ways the relays use an Encryptor are both safe. */
  lemma NoReuseInRelays(ops: seq<Op>, drawn: seq<Bytes>, keys: seq<Bytes>)
    requires (forall i :: 0 <= i < |ops| ==> ops[i] != EncryptAllOp)
          || (forall i :: 0 <= i < |ops| ==> ops[i] != EncryptOp)
    requires Logged(Run(ops), drawn, keys)
    ensures Distinct(Run(ops).keyed)
    ensures Distinct(drawn) ==> Distinct(keys)
  {
    RunFacts(ops);
    LoggedDistinct(Run(ops), drawn, keys);
  }

  /** Mixing them is not: whatever is encrypted and drawn, the second cipher has the IV of the first. */
  lemma ReuseWhenMixed(p: Profile, iv: Bytes, data: Bytes, data': Bytes, draw: Bytes, draw': Bytes)
    ensures Live(p, iv, [Use(EncryptOp, data, draw), Use(EncryptAllOp, data', draw')]).keys == [iv, iv]
  {
    hide Mask;
    var one := [Use(EncryptOp, data, draw)];
    assert one[..0] == [];
    assert (one + [Use(EncryptAllOp, data', draw')])[..1] == one;
    assert Live(p, iv, one) == LiveStep(p, Live(p, iv, []), one[0]);
  }
}
