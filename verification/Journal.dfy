/** The length-framed, checksummed append-only journal: what replay returns from any prefix of
    the bytes a process managed to write. */
module Journal {
  import opened Prelude
  import BE = BigEndian

  type Checksum = Bytes -> Bytes

  ghost predicate FourBytes(sum: Checksum) {
    forall p :: |sum(p)| == 4
  }

  /** `len (u32 be) || payload || checksum`. */
  function Frame(sum: Checksum, payload: Bytes): Bytes {
    BE.Encode(|payload|, 4) + payload + sum(payload)
  }

  function Frames(sum: Checksum, payloads: seq<Bytes>): Bytes {
    if payloads == [] then [] else Frame(sum, payloads[0]) + Frames(sum, payloads[1..])
  }

  ghost predicate Framable(payloads: seq<Bytes>) {
    forall i :: 0 <= i < |payloads| ==> |payloads[i]| < U32_LIMIT
  }

  /** One whole frame at the front of the buffer, if its length and checksum hold. */
  function FirstFrame(sum: Checksum, b: Bytes): (r: Option<Bytes>)
    ensures r.Some? ==> 8 + |r.value| <= |b|
  {
    if |b| < 4 then None
    else
      var len := BE.Decode(b[..4]);
      if |b| < 8 + len || b[4+len..8+len] != sum(b[4..4+len]) then None else Some(b[4..4+len])
  }

  function Cons(p: Bytes, rest: (seq<Bytes>, bool)): (seq<Bytes>, bool) {
    ([p] + rest.0, rest.1)
  }

  /** Every intact record in order, and whether the buffer ended in a tear. */
  function Replay(sum: Checksum, b: Bytes): (seq<Bytes>, bool)
    decreases |b|
  {
    if b == [] then ([], false)
    else
      match FirstFrame(sum, b)
      case None => ([], true)
      case Some(p) => Cons(p, Replay(sum, b[8+|p|..]))
  }

  lemma FrameParses(sum: Checksum, p: Bytes, rest: Bytes)
    requires FourBytes(sum) && |p| < U32_LIMIT
    ensures FirstFrame(sum, Frame(sum, p) + rest) == Some(p)
    ensures (Frame(sum, p) + rest)[8+|p|..] == rest && |Frame(sum, p)| == 8 + |p|
  {
    var b := Frame(sum, p) + rest;
    BE.Widths();
    BE.DecodeEncode(|p|, 4);
    assert b[..4] == BE.Encode(|p|, 4);
    assert b[4..4+|p|] == p;
    assert b[4+|p|..8+|p|] == sum(p);
  }

  lemma ReplayFrame(sum: Checksum, p: Bytes, rest: Bytes)
    requires FourBytes(sum) && |p| < U32_LIMIT
    ensures Replay(sum, Frame(sum, p) + rest) == Cons(p, Replay(sum, rest))
  {
    FrameParses(sum, p, rest);
  }

  function Prepend(ps: seq<Bytes>, rest: (seq<Bytes>, bool)): (seq<Bytes>, bool) {
    (ps + rest.0, rest.1)
  }

  lemma PrependNothing(r: (seq<Bytes>, bool))
    ensures Prepend([], r) == r
  {
    assert [] + r.0 == r.0;
  }

  lemma PrependFirst(ps: seq<Bytes>, r: (seq<Bytes>, bool))
    requires ps != []
    ensures Prepend(ps, r) == Cons(ps[0], Prepend(ps[1..], r))
  {
    assert ps + r.0 == [ps[0]] + (ps[1..] + r.0);
  }

  lemma PrependLast(ps: seq<Bytes>, p: Bytes, r: (seq<Bytes>, bool))
    ensures Prepend(ps + [p], r) == Prepend(ps, Cons(p, r))
  {
    assert (ps + [p]) + r.0 == ps + ([p] + r.0);
  }

  /** Intact frames are returned whatever follows them. */
  lemma {:induction false} IntactFirst(sum: Checksum, ps: seq<Bytes>, rest: Bytes)
    requires FourBytes(sum) && Framable(ps)
    ensures Replay(sum, Frames(sum, ps) + rest) == Prepend(ps, Replay(sum, rest))
  {
    if ps == [] {
      assert Frames(sum, ps) + rest == rest;
      PrependNothing(Replay(sum, rest));
    } else {
      var tail := Frames(sum, ps[1..]) + rest;
      assert Frames(sum, ps) + rest == Frame(sum, ps[0]) + tail;
      ReplayFrame(sum, ps[0], tail);
      IntactFirst(sum, ps[1..], rest);
      PrependFirst(ps, Replay(sum, rest));
    }
  }

  /** A strict, non-empty prefix of one frame is a tear and yields nothing. */
  lemma PartialFrame(sum: Checksum, p: Bytes, n: nat)
    requires FourBytes(sum) && |p| < U32_LIMIT && 0 < n < 8 + |p|
    ensures Replay(sum, Frame(sum, p)[..n]) == ([], true)
  {
    var b := Frame(sum, p)[..n];
    if n >= 4 {
      BE.Widths();
      BE.DecodeEncode(|p|, 4);
      assert b[..4] == BE.Encode(|p|, 4);
    }
  }

  /** How many whole frames fit in the first `n` bytes. */
  function WholeFrames(ps: seq<Bytes>, n: nat): (m: nat)
    ensures m <= |ps|
  {
    if ps == [] || n < 8 + |ps[0]| then 0 else 1 + WholeFrames(ps[1..], n - 8 - |ps[0]|)
  }

  lemma {:induction false} FramesLength(sum: Checksum, ps: seq<Bytes>)
    requires FourBytes(sum)
    ensures |Frames(sum, ps)| == TotalLength(ps)
  {
    if ps != [] { FramesLength(sum, ps[1..]); }
  }

  function TotalLength(ps: seq<Bytes>): nat {
    if ps == [] then 0 else 8 + |ps[0]| + TotalLength(ps[1..])
  }

  lemma {:induction false} WholeFramesFit(ps: seq<Bytes>, n: nat)
    ensures TotalLength(ps[..WholeFrames(ps, n)]) <= n
  {
    if ps != [] && n >= 8 + |ps[0]| {
      var m := WholeFrames(ps[1..], n - 8 - |ps[0]|);
      WholeFramesFit(ps[1..], n - 8 - |ps[0]|);
      assert ps[..m+1][1..] == ps[1..][..m];
    }
  }

  lemma CutPastFirst(sum: Checksum, ps: seq<Bytes>, n: nat)
    requires FourBytes(sum) && ps != [] && 8 + |ps[0]| <= n <= |Frames(sum, ps)|
    ensures var k := n - 8 - |ps[0]|;
      k <= |Frames(sum, ps[1..])| && Frames(sum, ps)[..n] == Frame(sum, ps[0]) + Frames(sum, ps[1..])[..k]
  {
  }

  lemma CutInFirst(sum: Checksum, ps: seq<Bytes>, n: nat)
    requires FourBytes(sum) && ps != [] && n < 8 + |ps[0]|
    ensures n <= |Frames(sum, ps)| && Frames(sum, ps)[..n] == Frame(sum, ps[0])[..n]
  {
  }

  lemma WholeFramesStep(ps: seq<Bytes>, n: nat)
    requires ps != [] && 8 + |ps[0]| <= n
    ensures var k := n - 8 - |ps[0]|; var m := WholeFrames(ps[1..], k);
      && WholeFrames(ps, n) == m + 1
      && Cons(ps[0], (ps[1..][..m], TotalLength(ps[1..][..m]) != k)) == (ps[..m+1], TotalLength(ps[..m+1]) != n)
  {
    var m := WholeFrames(ps[1..], n - 8 - |ps[0]|);
    assert ps[..m+1][1..] == ps[1..][..m];
    assert [ps[0]] + ps[1..][..m] == ps[..m+1];
  }

  /** Replay of the first `n` bytes returns the whole frames in them, and a tear for the rest. */
  ghost predicate ReplaysWhole(sum: Checksum, ps: seq<Bytes>, n: nat)
    requires n <= |Frames(sum, ps)|
  {
    var m := WholeFrames(ps, n);
    Replay(sum, Frames(sum, ps)[..n]) == (ps[..m], TotalLength(ps[..m]) != n)
  }

  lemma KilledInFirst(sum: Checksum, ps: seq<Bytes>, n: nat)
    requires FourBytes(sum) && Framable(ps) && ps != [] && n < 8 + |ps[0]|
    ensures n <= |Frames(sum, ps)| && ReplaysWhole(sum, ps, n)
  {
    CutInFirst(sum, ps, n);
    if n > 0 { PartialFrame(sum, ps[0], n); }
  }

  lemma KilledPastFirst(sum: Checksum, ps: seq<Bytes>, n: nat)
    requires FourBytes(sum) && Framable(ps) && ps != [] && 8 + |ps[0]| <= n <= |Frames(sum, ps)|
    requires n - 8 - |ps[0]| <= |Frames(sum, ps[1..])| && ReplaysWhole(sum, ps[1..], n - 8 - |ps[0]|)
    ensures ReplaysWhole(sum, ps, n)
  {
    var k := n - 8 - |ps[0]|;
    CutPastFirst(sum, ps, n);
    ReplayFrame(sum, ps[0], Frames(sum, ps[1..])[..k]);
    WholeFramesStep(ps, n);
  }

  /** A process killed while appending leaves some prefix of the bytes it meant to write; replay
      returns exactly the records wholly written, and reports a tear exactly when the prefix
      ends inside a record. */
  lemma {:induction false} KilledAppend(sum: Checksum, ps: seq<Bytes>, n: nat)
    requires FourBytes(sum) && Framable(ps) && n <= |Frames(sum, ps)|
    ensures ReplaysWhole(sum, ps, n)
  {
    if ps == [] {
    } else if n < 8 + |ps[0]| {
      KilledInFirst(sum, ps, n);
    } else {
      CutPastFirst(sum, ps, n);
      KilledAppend(sum, ps[1..], n - 8 - |ps[0]|);
      KilledPastFirst(sum, ps, n);
    }
  }

  // ---------------------------------------------------------------- appending after a tear

  /** The bytes replay stops at: empty, or a tail that parses as no frame. */
  function Rest(sum: Checksum, b: Bytes): Bytes
    decreases |b|
  {
    if b == [] then []
    else
      match FirstFrame(sum, b)
      case None => b
      case Some(p) => Rest(sum, b[8+|p|..])
  }

  lemma {:induction false} TornIff(sum: Checksum, b: Bytes)
    ensures Replay(sum, b).1 <==> Rest(sum, b) != []
    ensures Rest(sum, b) != [] ==> FirstFrame(sum, Rest(sum, b)).None?
    decreases |b|
  {
    if b != [] && FirstFrame(sum, b).Some? {
      TornIff(sum, b[8+|FirstFrame(sum, b).value|..]);
    }
  }

  lemma FirstFrameAppend(sum: Checksum, b: Bytes, more: Bytes)
    requires FirstFrame(sum, b).Some?
    ensures FirstFrame(sum, b + more) == FirstFrame(sum, b)
    ensures var n := 8 + |FirstFrame(sum, b).value|; (b + more)[n..] == b[n..] + more
  {
    var len := |FirstFrame(sum, b).value|;
    assert (b + more)[..4] == b[..4] && (b + more)[4..4+len] == b[4..4+len];
    assert (b + more)[4+len..8+len] == b[4+len..8+len];
  }

  /** Appending leaves the intact records alone; what is replayed of the new bytes is what the
      unparsed tail and they make together. */
  lemma {:induction false} ReplayAppend(sum: Checksum, b: Bytes, more: Bytes)
    ensures Replay(sum, b + more) == Prepend(Replay(sum, b).0, Replay(sum, Rest(sum, b) + more))
    ensures Rest(sum, b + more) == Rest(sum, Rest(sum, b) + more)
    decreases |b|
  {
    if b == [] {
      assert b + more == more && [] + more == more;
      PrependNothing(Replay(sum, more));
    } else if FirstFrame(sum, b).None? {
      PrependNothing(Replay(sum, b + more));
    } else {
      var p := FirstFrame(sum, b).value;
      FirstFrameAppend(sum, b, more);
      ReplayAppend(sum, b[8+|p|..], more);
      PrependFirst(Replay(sum, b).0, Replay(sum, Rest(sum, b) + more));
    }
  }

  /** No frame starts at the tail even with the new bytes behind it. */
  predicate Sealed(sum: Checksum, b: Bytes, more: Bytes) {
    Rest(sum, b) == [] || FirstFrame(sum, Rest(sum, b) + more).None?
  }

  /** A frame appended to a journal that ends whole is replayed. */
  lemma AppendWhole(sum: Checksum, b: Bytes, p: Bytes)
    requires FourBytes(sum) && |p| < U32_LIMIT && Rest(sum, b) == []
    ensures Replay(sum, b + Frame(sum, p)) == (Replay(sum, b).0 + [p], false)
    ensures Rest(sum, b + Frame(sum, p)) == []
  {
    ReplayAppend(sum, b, Frame(sum, p));
    assert [] + Frame(sum, p) == Frame(sum, p) == Frame(sum, p) + [];
    ReplayFrame(sum, p, []);
    assert [p] + [] == [p];
    TornIff(sum, b + Frame(sum, p));
  }

  /** Part of a frame appended to a journal that ends whole adds no record. */
  lemma AppendPart(sum: Checksum, b: Bytes, p: Bytes, n: nat)
    requires FourBytes(sum) && |p| < U32_LIMIT && Rest(sum, b) == [] && n < |Frame(sum, p)|
    ensures Replay(sum, b + Frame(sum, p)[..n]) == (Replay(sum, b).0, n > 0)
    ensures Rest(sum, b + Frame(sum, p)[..n]) == Frame(sum, p)[..n]
  {
    var c := Frame(sum, p)[..n];
    ReplayAppend(sum, b, c);
    assert [] + c == c;
    if n > 0 { PartialFrame(sum, p, n); }
    assert Replay(sum, b).0 + [] == Replay(sum, b).0;
  }

  /** Whatever is appended behind a tear that stays sealed is never replayed. */
  lemma AppendTorn(sum: Checksum, b: Bytes, more: Bytes)
    requires Rest(sum, b) != [] && Sealed(sum, b, more)
    ensures Replay(sum, b + more) == (Replay(sum, b).0, true)
    ensures Rest(sum, b + more) == Rest(sum, b) + more
  {
    ReplayAppend(sum, b, more);
    assert Replay(sum, b).0 + [] == Replay(sum, b).0;
  }

  /** The new bytes complete a frame whose payload was all in the tail already, and nothing after
      it parses. */
  predicate Mends(sum: Checksum, b: Bytes, more: Bytes) {
    var t := Rest(sum, b) + more;
    match FirstFrame(sum, t)
    case None => false
    case Some(p) => 4 + |p| <= |Rest(sum, b)| && Replay(sum, t[8+|p|..]).0 == []
  }

  lemma NothingReplayed(sum: Checksum, b: Bytes)
    requires Replay(sum, b).0 == []
    ensures Rest(sum, b) == b
  {
  }

  /** A mended tail gives back the one record it held. */
  lemma AppendMends(sum: Checksum, b: Bytes, more: Bytes)
    requires Mends(sum, b, more)
    ensures var p := FirstFrame(sum, Rest(sum, b) + more).value;
      && Replay(sum, b + more).0 == Replay(sum, b).0 + [p]
      && Rest(sum, b + more) == (Rest(sum, b) + more)[8+|p|..]
  {
    var t := Rest(sum, b) + more;
    var p := FirstFrame(sum, t).value;
    ReplayAppend(sum, b, more);
    NothingReplayed(sum, t[8+|p|..]);
    assert [p] + [] == [p];
  }

  /** A tail that holds a whole frame with a wrong checksum stays sealed whatever is appended. */
  lemma SealedForGood(sum: Checksum, b: Bytes, more: Bytes, later: Bytes)
    requires Rest(sum, b) != [] && Sealed(sum, b, more)
    requires var t := Rest(sum, b) + more; |t| >= 4 && |t| >= 8 + BE.Decode(t[..4])
    ensures Sealed(sum, b + more, later)
  {
    var t := Rest(sum, b) + more;
    AppendTorn(sum, b, more);
    assert (t + later)[..4] == t[..4];
    var len := BE.Decode(t[..4]);
    assert (t + later)[4..4+len] == t[4..4+len] && (t + later)[4+len..8+len] == t[4+len..8+len];
  }

  lemma CutSlices(head: Bytes, p: Bytes, sum: Bytes, k: nat, more: Bytes)
    requires |head| == 4 && |sum| == 4 && k < 4 <= k + |more|
    ensures var b := (head + p + sum)[..4+|p|+k] + more;
      b[..4] == head && b[4..4+|p|] == p && b[4+|p|..8+|p|] == sum[..k] + more[..4-k]
  {
    var b := (head + p + sum)[..4+|p|+k] + more;
    assert (head + p + sum)[..4+|p|+k] == head + p + sum[..k];
    assert b == head + p + (sum[..k] + more);
    assert b[4+|p|..8+|p|] == (sum[..k] + more)[..4];
  }

  lemma SameSum(sum: Bytes, k: nat, more: Bytes)
    requires |sum| == 4 && k < 4 && |more| == 4 - k
    ensures sum[..k] + more == sum <==> more == sum[k..]
  {
    assert sum == sum[..k] + sum[k..];
    if sum[..k] + more == sum { assert (sum[..k] + more)[k..] == more; }
  }

  /** A tail cut inside a record's checksum can be completed by what is appended next: exactly
      when the next bytes are the missing ones, and then it is the cut record that comes back. */
  lemma CutInChecksum(sum: Checksum, p: Bytes, k: nat, more: Bytes)
    requires FourBytes(sum) && |p| < U32_LIMIT && k < 4 <= k + |more|
    ensures 4 + |p| + k < |Frame(sum, p)|
    ensures FirstFrame(sum, Frame(sum, p)[..4+|p|+k] + more) == if more[..4-k] == sum(p)[k..] then Some(p) else None
  {
    BE.Widths();
    BE.DecodeEncode(|p|, 4);
    CutSlices(BE.Encode(|p|, 4), p, sum(p), k, more);
    SameSum(sum(p), k, more[..4-k]);
  }

  /** `replay_framed`: a cursor over the file. */
  method ReplayFramed(sum: Checksum, bytes: Bytes) returns (payloads: seq<Bytes>, torn: bool)
    ensures (payloads, torn) == Replay(sum, bytes)
  {
    payloads, torn := [], false;
    var cursor := 0;
    assert bytes[0..] == bytes;
    PrependNothing(Replay(sum, bytes));
    while cursor < |bytes|
      invariant cursor <= |bytes| && !torn
      invariant Replay(sum, bytes) == Prepend(payloads, Replay(sum, bytes[cursor..]))
    {
      var frame := FirstFrame(sum, bytes[cursor..]);
      if frame.None? {
        assert payloads + [] == payloads;
        torn := true;
        return;
      }
      var next := cursor + 8 + |frame.value|;
      assert bytes[cursor..][8+|frame.value|..] == bytes[next..];
      PrependLast(payloads, frame.value, Replay(sum, bytes[next..]));
      payloads, cursor := payloads + [frame.value], next;
    }
    assert bytes[cursor..] == [];
    assert payloads + [] == payloads;
  }

  /** A frame on disk: four length bytes, the most significant first, then the payload, then its
      checksum. */
  lemma FrameLayout(sum: Checksum, p: Bytes, i: nat)
    requires |p| < U32_LIMIT && i < 4
    ensures var f := Frame(sum, p);
      && |f| == 4 + |p| + |sum(p)|
      && f[i] == |p| / BE.Pow256(3 - i) % 256
      && f[4..4+|p|] == p && f[4+|p|..] == sum(p)
  {
    BE.ByteAt(|p|, 4, i);
  }
}
