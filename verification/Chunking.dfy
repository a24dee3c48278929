/** Content-defined chunking with a gear hash modulo 2^64. */
module Chunking {
  import opened Prelude

  /** The gear table is any 256 words. */
  type Gear = t: seq<u64> | |t| == 256 witness seq(256, _ => 0)

  datatype Profile = Profile(version: nat, minSize: nat, maskBits: nat, maxSize: nat)
  datatype Span = Span(offset: nat, length: nat)
  datatype Manifest = Manifest(version: nat, spans: seq<Span>)

  // ---------------------------------------------------------------- the rolling hash

  function Pow2(n: nat): (r: nat)
    ensures r > 0
  {
    if n == 0 then 1 else 2 * Pow2(n - 1)
  }

  /** `(hash << 1).wrapping_add(entry)` on a 64-bit word. */
  function Roll(h: u64, entry: u64): u64 {
    (2 * h + entry) % U64_LIMIT
  }

  function Hash(t: Gear, s: Bytes): u64 {
    if s == [] then 0 else Roll(Hash(t, s[..|s|-1]), t[s[|s|-1]])
  }

  /** The mask test: the low `bits` bits are zero. */
  predicate Masked(h: nat, bits: nat) {
    h % Pow2(bits) == 0
  }

  /** The same hash without wrap-around. */
  ghost function Weight(t: Gear, s: Bytes): nat {
    if s == [] then 0 else 2 * Weight(t, s[..|s|-1]) + t[s[|s|-1]]
  }

  lemma ModStep(a: nat, b: nat, g: nat, m: nat)
    requires m > 0 && a == b % m
    ensures (2 * a + g) % m == (2 * b + g) % m
  {
    var q := b / m;
    assert b == m * q + a;
    assert 2 * b + g == m * (2 * q) + (2 * a + g);
    ModAdd(2 * a + g, 2 * q, m);
  }

  lemma ModAdd(x: int, q: int, m: int)
    requires m > 0
    ensures (m * q + x) % m == x % m
  {
    var k := x / m;
    assert x == m * k + x % m;
    assert m * q + x == m * (q + k) + x % m;
    ModUnique(m * q + x, q + k, x % m, m);
  }

  lemma AtLeastOnce(m: int, k: int)
    requires m > 0 && k >= 1
    ensures m * k >= m
  {
  }

  lemma ModUnique(n: int, q: int, r: int, m: int)
    requires m > 0 && n == m * q + r && 0 <= r < m
    ensures n % m == r
  {
    var p, s := n / m, n % m;
    assert n == m * p + s && 0 <= s < m;
    assert m * (q - p) == m * q - m * p && m * (p - q) == m * p - m * q;
    if q > p {
      AtLeastOnce(m, q - p);
    } else if q < p {
      AtLeastOnce(m, p - q);
    }
  }

  lemma {:induction false} HashIsWeight(t: Gear, s: Bytes)
    ensures Hash(t, s) == Weight(t, s) % U64_LIMIT
  {
    if s != [] {
      HashIsWeight(t, s[..|s|-1]);
      ModStep(Hash(t, s[..|s|-1]), Weight(t, s[..|s|-1]), t[s[|s|-1]], U64_LIMIT);
    }
  }

  lemma {:induction false} WeightConcat(t: Gear, a: Bytes, b: Bytes)
    ensures Weight(t, a + b) == Pow2(|b|) * Weight(t, a) + Weight(t, b)
  {
    if b == [] {
      assert a + b == a;
    } else {
      assert (a + b)[..|a + b|-1] == a + b[..|b|-1];
      WeightConcat(t, a, b[..|b|-1]);
      assert 2 * (Pow2(|b| - 1) * Weight(t, a)) == Pow2(|b|) * Weight(t, a);
    }
  }

  lemma {:induction false} Pow2Split(m: nat, n: nat)
    requires m <= n
    ensures Pow2(n) == Pow2(m) * Pow2(n - m)
  {
    if m < n {
      Pow2Split(m, n - 1);
      assert 2 * (Pow2(m) * Pow2(n - 1 - m)) == Pow2(m) * (2 * Pow2(n - 1 - m));
    }
  }

  lemma Pow2Word()
    ensures Pow2(64) == U64_LIMIT
  {
    Pow2Split(16, 32);
    Pow2Split(32, 64);
    assert Pow2(8) == 256;
    Pow2Split(8, 16);
  }

  /** Reducing modulo 2^64 first does not disturb a mask of fewer bits. */
  lemma MaskAfterWrap(n: nat, bits: nat)
    requires bits < 64
    ensures (n % U64_LIMIT) % Pow2(bits) == n % Pow2(bits)
  {
    Pow2Word();
    Pow2Split(bits, 64);
    var m, k := Pow2(bits), Pow2(64 - bits);
    var q, r := n / U64_LIMIT, n % U64_LIMIT;
    assert n == U64_LIMIT * q + r;
    assert U64_LIMIT * q == m * (k * q) by {
      assert m * k == U64_LIMIT;
      MulAssoc(m, k, q);
    }
    ModAdd(r, k * q, m);
  }

  lemma MulAssoc(a: int, b: int, c: int)
    ensures (a * b) * c == a * (b * c)
  {
  }

  /** The mask test of a rolling hash sees only the last `bits` bytes. */
  lemma MaskIsLocal(t: Gear, s: Bytes, bits: nat)
    requires bits < 64 && bits <= |s|
    ensures Masked(Hash(t, s), bits) <==> Masked(Hash(t, s[|s|-bits..]), bits)
  {
    var a, b := s[..|s|-bits], s[|s|-bits..];
    assert s == a + b;
    WeightConcat(t, a, b);
    HashIsWeight(t, s);
    HashIsWeight(t, b);
    MaskAfterWrap(Weight(t, s), bits);
    MaskAfterWrap(Weight(t, b), bits);
    ModAdd(Weight(t, b), Weight(t, a), Pow2(bits));
  }

  // ---------------------------------------------------------------- the cut rule

  /** The loop's test at index `i` of a chunk starting at the front of `rest`. */
  predicate CutTest(t: Gear, p: Profile, rest: Bytes, i: nat)
    requires i < |rest|
  {
    i >= p.minSize && Masked(Hash(t, rest[..i+1]), p.maskBits)
  }

  function Window(p: Profile, rest: Bytes): nat {
    if |rest| < p.maxSize then |rest| else p.maxSize
  }

  /** The first index at or after `i` that passes, as a length, else the whole window. */
  function Scan(t: Gear, p: Profile, rest: Bytes, i: nat): (c: nat)
    requires i <= Window(p, rest)
    ensures c <= |rest|
    decreases Window(p, rest) - i
  {
    if i == Window(p, rest) then Window(p, rest)
    else if CutTest(t, p, rest, i) then i + 1
    else Scan(t, p, rest, i + 1)
  }

  /** The length of the chunk that starts at the front of `rest`. */
  function Cut(t: Gear, p: Profile, rest: Bytes): (c: nat)
    ensures c <= |rest|
  {
    if |rest| <= p.minSize then |rest| else Scan(t, p, rest, 0)
  }

  lemma {:induction false} ScanFirst(t: Gear, p: Profile, rest: Bytes, i: nat)
    requires i <= Window(p, rest)
    ensures var c := Scan(t, p, rest, i);
      && i <= c <= Window(p, rest) && (c == i ==> i == Window(p, rest))
      && (forall k :: i <= k < c - 1 ==> !CutTest(t, p, rest, k))
      && (c == Window(p, rest) || (c > i && CutTest(t, p, rest, c - 1)))
    decreases Window(p, rest) - i
  {
    if i < Window(p, rest) && !CutTest(t, p, rest, i) {
      ScanFirst(t, p, rest, i + 1);
    }
  }

  /** Chunking makes progress exactly when the maximum size is positive or the remainder is a
      final short chunk: with a zero maximum the loop never ends on a longer object. */
  lemma CutProgress(t: Gear, p: Profile, rest: Bytes)
    requires rest != []
    ensures Cut(t, p, rest) > 0 <==> p.maxSize > 0 || |rest| <= p.minSize
  {
    if |rest| > p.minSize {
      ScanFirst(t, p, rest, 0);
    }
  }

  ghost predicate Chunkable(p: Profile, data: Bytes) {
    p.maskBits < 64 && (p.maxSize > 0 || |data| <= p.minSize)
  }

  function Lengths(t: Gear, p: Profile, data: Bytes): seq<nat>
    requires p.maxSize > 0 || |data| <= p.minSize
    decreases |data|
  {
    if data == [] then []
    else
      CutProgress(t, p, data);
      [Cut(t, p, data)] + Lengths(t, p, data[Cut(t, p, data)..])
  }

  /** A content-defined candidate: whether position `i` ends a window of `bits` bytes whose own
      hash passes the mask. It depends on nothing outside that window. */
  predicate CandidateAt(t: Gear, data: Bytes, i: nat, bits: nat)
    requires i < |data| && bits <= i + 1
  {
    Masked(Hash(t, data[i+1-bits..i+1]), bits)
  }

  /** With the minimum size at least the window, the loop's test at a position is the candidate
      test there, whatever chunk the position falls in. */
  lemma CutTestIsCandidate(t: Gear, p: Profile, data: Bytes, start: nat, i: nat)
    requires p.maskBits < 64 && p.minSize + 1 >= p.maskBits
    requires start + i < |data| && i >= p.minSize
    ensures CutTest(t, p, data[start..], i) <==> CandidateAt(t, data, start + i, p.maskBits)
  {
    var s := data[start..][..i+1];
    MaskIsLocal(t, s, p.maskBits);
    assert s[|s|-p.maskBits..] == data[start+i+1-p.maskBits..start+i+1];
  }

  /** So every chunk ends at the first candidate past its minimum, or at the window's end: a
      greedy reading of the object's candidates. */
  lemma CutIsFirstCandidate(t: Gear, p: Profile, data: Bytes, start: nat)
    requires p.maskBits < 64 && p.minSize + 1 >= p.maskBits
    requires start < |data| && |data| - start > p.minSize
    ensures var rest := data[start..];
      var c := Cut(t, p, rest);
      && (forall q: nat :: start + p.minSize <= q < start + c - 1 ==> !CandidateAt(t, data, q, p.maskBits))
      && (c == Window(p, rest) ||
          (c > p.minSize && CandidateAt(t, data, start + c - 1, p.maskBits)))
  {
    var rest := data[start..];
    var c := Cut(t, p, rest);
    ScanFirst(t, p, rest, 0);
    forall q: nat | start + p.minSize <= q < start + c - 1 ensures !CandidateAt(t, data, q, p.maskBits) {
      assert !CutTest(t, p, rest, q - start);
      CutTestIsCandidate(t, p, data, start, q - start);
    }
    if c != Window(p, rest) {
      assert CutTest(t, p, rest, c - 1);
      CutTestIsCandidate(t, p, data, start, c - 1);
    }
  }

  // ---------------------------------------------------------------- the cut in arithmetic

  /** The last `k` bytes, each weighted by two to its distance from the end. */
  function GearSum(t: Gear, s: Bytes, k: nat): nat
    requires k <= |s|
  {
    if k == 0 then 0 else GearSum(t, s, k - 1) + Pow2(k - 1) * t[s[|s|-k]]
  }

  lemma {:induction false} WeightIsSum(t: Gear, s: Bytes, k: nat)
    requires k <= |s|
    ensures Weight(t, s[|s|-k..]) == GearSum(t, s, k)
  {
    if k > 0 {
      WeightIsSum(t, s, k - 1);
      var first, rest := s[|s|-k..|s|-k+1], s[|s|-k+1..];
      assert s[|s|-k..] == first + rest;
      WeightConcat(t, first, rest);
      WeightOfOne(t, s[|s|-k]);
      assert first == [s[|s|-k]];
    } else {
      assert s[|s|..] == [];
    }
  }

  lemma WeightOfOne(t: Gear, b: byte)
    ensures Weight(t, [b]) == t[b]
  {
    assert [b][..0] == [];
  }

  /** How many of the last bytes of a chunk the mask sees. */
  function Seen(p: Profile, length: nat): nat {
    if p.maskBits < length then p.maskBits else length
  }

  /** What makes a length a cut: the weighted sum of the bytes the mask sees is a multiple of two to
      the mask's width. */
  predicate SumCuts(t: Gear, p: Profile, rest: Bytes, length: nat)
    requires length <= |rest|
  {
    GearSum(t, rest[..length], Seen(p, length)) % Pow2(p.maskBits) == 0
  }

  lemma TestIsSum(t: Gear, p: Profile, rest: Bytes, i: nat)
    requires p.maskBits < 64 && p.minSize <= i < |rest|
    ensures CutTest(t, p, rest, i) <==> SumCuts(t, p, rest, i + 1)
  {
    var s := rest[..i+1];
    var k := Seen(p, i + 1);
    WeightIsSum(t, s, k);
    if p.maskBits <= |s| {
      MaskIsLocal(t, s, p.maskBits);
      HashIsWeight(t, s[|s|-k..]);
      MaskAfterWrap(Weight(t, s[|s|-k..]), p.maskBits);
    } else {
      assert s[|s|-k..] == s;
      HashIsWeight(t, s);
      MaskAfterWrap(Weight(t, s), p.maskBits);
    }
  }

  /** The cut rule in arithmetic. A rest no longer than the minimum is one chunk. Otherwise the chunk
      is the shortest length past the minimum whose weighted sum over the last mask-width bytes is
      a multiple of two to that width, and if no length in the window is, the whole window. */
  ghost predicate CutRule(t: Gear, p: Profile, rest: Bytes, c: nat) {
    var window := if |rest| < p.maxSize then |rest| else p.maxSize;
    if |rest| <= p.minSize then c == |rest|
    else
      && c <= window
      && (c < window ==> c > p.minSize && SumCuts(t, p, rest, c))
      && (forall l :: p.minSize < l < c ==> !SumCuts(t, p, rest, l))
  }

  /** Every chunk of every profile with fewer than 64 mask bits is cut by the rule. */
  lemma CutArithmetic(t: Gear, p: Profile, rest: Bytes)
    requires p.maskBits < 64
    ensures CutRule(t, p, rest, Cut(t, p, rest))
  {
    if |rest| > p.minSize {
      var c := Cut(t, p, rest);
      ScanFirst(t, p, rest, 0);
      forall l | p.minSize < l < c ensures !SumCuts(t, p, rest, l) {
        assert !CutTest(t, p, rest, l - 1);
        TestIsSum(t, p, rest, l - 1);
      }
      if c < Window(p, rest) {
        assert CutTest(t, p, rest, c - 1);
        TestIsSum(t, p, rest, c - 1);
      }
    }
  }

  // ---------------------------------------------------------------- boundaries

  function Sum(ls: seq<nat>): nat {
    if ls == [] then 0 else ls[0] + Sum(ls[1..])
  }

  /** Chunk lengths cover the object. */
  lemma {:induction false} LengthsCover(t: Gear, p: Profile, data: Bytes)
    requires p.maxSize > 0 || |data| <= p.minSize
    ensures Sum(Lengths(t, p, data)) == |data|
    ensures forall i :: 0 <= i < |Lengths(t, p, data)| ==> Lengths(t, p, data)[i] > 0
    decreases |data|
  {
    if data != [] {
      CutProgress(t, p, data);
      LengthsCover(t, p, data[Cut(t, p, data)..]);
      assert Lengths(t, p, data)[1..] == Lengths(t, p, data[Cut(t, p, data)..]);
    }
  }

  /** Every chunk but the last is longer than the minimum, or as long as a smaller maximum
      allows, and no longer than the maximum. */
  lemma {:induction false} LengthsBounded(t: Gear, p: Profile, data: Bytes, i: nat)
    requires p.maxSize > 0 || |data| <= p.minSize
    requires i + 1 < |Lengths(t, p, data)|
    ensures var l := Lengths(t, p, data)[i];
      l <= p.maxSize && (l > p.minSize || l == p.maxSize)
    decreases |data|
  {
    var c := Cut(t, p, data);
    CutProgress(t, p, data);
    if i == 0 {
      if |data| > p.minSize {
        ScanFirst(t, p, data, 0);
      }
      assert data[c..] != [];
    } else {
      assert Lengths(t, p, data)[i] == Lengths(t, p, data[c..])[i-1];
      LengthsBounded(t, p, data[c..], i - 1);
    }
  }

  /** The object has a chunk boundary after its first `k` chunks. */
  ghost predicate BoundaryAt(t: Gear, p: Profile, data: Bytes, k: nat, at: nat)
    requires p.maxSize > 0 || |data| <= p.minSize
  {
    k <= |Lengths(t, p, data)| && at == Sum(Lengths(t, p, data)[..k])
  }

  /** After a boundary, chunking is chunking of the remainder. */
  lemma {:induction false} AfterBoundary(t: Gear, p: Profile, data: Bytes, k: nat, at: nat)
    requires p.maxSize > 0 || |data| <= p.minSize
    requires BoundaryAt(t, p, data, k, at)
    ensures at <= |data| && Lengths(t, p, data)[k..] == Lengths(t, p, data[at..])
    decreases |data|
  {
    var ls := Lengths(t, p, data);
    if k == 0 {
      assert data[0..] == data;
    } else {
      CutProgress(t, p, data);
      var c := Cut(t, p, data);
      assert ls[..k][1..] == ls[1..][..k-1];
      AfterBoundary(t, p, data[c..], k - 1, at - c);
      assert data[c..][at-c..] == data[at..];
      assert ls[k..] == ls[1..][k-1..];
    }
  }

  /** Two objects that share a suffix and both have a boundary at its start are cut identically
      from there on. */
  lemma SharedSuffixResynchronizes(t: Gear, p: Profile, a: Bytes, b: Bytes, k: nat, l: nat, at: nat, bt: nat)
    requires (p.maxSize > 0 || |a| <= p.minSize) && (p.maxSize > 0 || |b| <= p.minSize)
    requires BoundaryAt(t, p, a, k, at) && BoundaryAt(t, p, b, l, bt)
    requires at <= |a| && bt <= |b| && a[at..] == b[bt..]
    ensures Lengths(t, p, a)[k..] == Lengths(t, p, b)[l..]
  {
    AfterBoundary(t, p, a, k, at);
    AfterBoundary(t, p, b, l, bt);
  }

  /** `q` is the first candidate past the minimum of the chunk starting at `start`, inside its
      window. */
  ghost predicate FirstCandidate(t: Gear, p: Profile, data: Bytes, start: nat, q: nat)
    requires p.minSize + 1 >= p.maskBits
  {
    && start + p.minSize <= q < |data| && q - start < p.maxSize
    && CandidateAt(t, data, q, p.maskBits)
    && forall x: nat :: start + p.minSize <= x < q ==> !CandidateAt(t, data, x, p.maskBits)
  }

  lemma CutAtCandidate(t: Gear, p: Profile, data: Bytes, start: nat, q: nat)
    requires p.maskBits < 64 && p.minSize + 1 >= p.maskBits && FirstCandidate(t, p, data, start, q)
    ensures Cut(t, p, data[start..]) == q + 1 - start
  {
    CutIsFirstCandidate(t, p, data, start);
    var c := Cut(t, p, data[start..]);
    ScanFirst(t, p, data[start..], 0);
  }

  lemma NextBoundary(t: Gear, p: Profile, data: Bytes, k: nat, at: nat)
    requires (p.maxSize > 0 || |data| <= p.minSize) && BoundaryAt(t, p, data, k, at) && at < |data|
    ensures BoundaryAt(t, p, data, k + 1, at + Cut(t, p, data[at..]))
  {
    AfterBoundary(t, p, data, k, at);
    var ls := Lengths(t, p, data);
    CutProgress(t, p, data[at..]);
    assert ls[k] == ls[k..][0];
    assert ls[..k+1] == ls[..k] + [ls[k]];
    SumAppend(ls[..k], ls[k]);
  }

  /** Chunks that both reach the same candidate first are cut there, and everything after it is cut
      identically in both objects. */
  lemma SameCandidateResynchronizes(
      t: Gear, p: Profile, a: Bytes, b: Bytes, k: nat, l: nat, at: nat, bt: nat, q: nat, r: nat)
    requires p.maskBits < 64 && p.minSize + 1 >= p.maskBits && p.maxSize > 0
    requires BoundaryAt(t, p, a, k, at) && BoundaryAt(t, p, b, l, bt)
    requires FirstCandidate(t, p, a, at, q) && FirstCandidate(t, p, b, bt, r)
    requires a[q+1..] == b[r+1..]
    ensures k + 1 <= |Lengths(t, p, a)| && l + 1 <= |Lengths(t, p, b)|
    ensures Lengths(t, p, a)[k+1..] == Lengths(t, p, b)[l+1..]
  {
    CutAtCandidate(t, p, a, at, q);
    CutAtCandidate(t, p, b, bt, r);
    NextBoundary(t, p, a, k, at);
    NextBoundary(t, p, b, l, bt);
    SharedSuffixResynchronizes(t, p, a, b, k + 1, l + 1, q + 1, r + 1);
  }

  /** From `x` and from `y` on, the two objects are the same bytes. */
  predicate SharedFrom(a: Bytes, x: nat, b: Bytes, y: nat) {
    x <= |a| && y <= |b| && a[x..] == b[y..]
  }

  /** A window's length into the shared suffix, the two objects have the same candidates. */
  lemma CandidatesCoincide(t: Gear, a: Bytes, x: nat, b: Bytes, y: nat, d: nat, bits: nat)
    requires SharedFrom(a, x, b, y) && x + d < |a| && bits <= d + 1
    ensures y + d < |b| && (CandidateAt(t, a, x + d, bits) <==> CandidateAt(t, b, y + d, bits))
  {
    assert |a[x..]| == |b[y..]|;
    SliceShift(a, x, d + 1 - bits, d + 1);
    SliceShift(b, y, d + 1 - bits, d + 1);
  }

  lemma SliceShift(s: Bytes, x: nat, i: nat, j: nat)
    requires i <= j && x + j <= |s|
    ensures s[x+i..x+j] == s[x..][i..j]
  {
  }

  /** A chunk of `b` that starts no earlier in the shared suffix, and whose minimum the first
      candidate of the chunk of `a` passes, has the same first candidate. */
  lemma SharedFirstCandidate(t: Gear, p: Profile, a: Bytes, x: nat, b: Bytes, y: nat, at: nat, bt: nat, q: nat)
    requires p.minSize + 1 >= p.maskBits && SharedFrom(a, x, b, y) && FirstCandidate(t, p, a, at, q)
    requires x <= at + p.minSize && x + p.maskBits <= at + p.minSize + 1
    requires at + y <= bt + x && bt + p.minSize + x <= q + y
    ensures FirstCandidate(t, p, b, bt, q + y - x)
  {
    var r := q + y - x;
    CandidatesCoincide(t, a, x, b, y, q - x, p.maskBits);
    forall z: nat | bt + p.minSize <= z < r ensures !CandidateAt(t, b, z, p.maskBits) {
      CandidatesCoincide(t, a, x, b, y, z - y, p.maskBits);
      assert !CandidateAt(t, a, x + (z - y), p.maskBits);
    }
  }

  /** Resynchronization after an edit, from the shared suffix alone. Whatever precedes it in each
      object, take a chunk of each, the one of `b` starting no earlier in the suffix; if the chunk
      of `a` ends at a candidate that is past both minimums, the chunk of `b` ends there too, and
      from there on both objects are cut identically. */
  lemma EditResynchronizes(
      t: Gear, p: Profile, a: Bytes, x: nat, b: Bytes, y: nat, k: nat, l: nat, at: nat, bt: nat, q: nat)
    requires p.maskBits < 64 && p.minSize + 1 >= p.maskBits && p.maxSize > 0 && SharedFrom(a, x, b, y)
    requires BoundaryAt(t, p, a, k, at) && BoundaryAt(t, p, b, l, bt) && FirstCandidate(t, p, a, at, q)
    requires x <= at + p.minSize && x + p.maskBits <= at + p.minSize + 1
    requires at + y <= bt + x && bt + p.minSize + x <= q + y
    ensures k + 1 <= |Lengths(t, p, a)| && l + 1 <= |Lengths(t, p, b)|
    ensures Lengths(t, p, a)[k+1..] == Lengths(t, p, b)[l+1..]
  {
    var r := q + y - x;
    SharedFirstCandidate(t, p, a, x, b, y, at, bt, q);
    assert a[q+1..] == a[x..][q+1-x..] && b[r+1..] == b[y..][r+1-y..];
    SameCandidateResynchronizes(t, p, a, b, k, l, at, bt, q, r);
  }

  // ---------------------------------------------------------------- the loops

  function Spans(start: nat, lengths: seq<nat>): seq<Span>
    decreases |lengths|
  {
    if lengths == [] then [] else [Span(start, lengths[0])] + Spans(start + lengths[0], lengths[1..])
  }

  lemma {:induction false} SpansAppend(start: nat, ls: seq<nat>, l: nat)
    ensures Spans(start, ls + [l]) == Spans(start, ls) + [Span(start + Sum(ls), l)]
    decreases |ls|
  {
    if ls == [] {
      assert ls + [l] == [l];
      assert [l][1..] == [];
    } else {
      assert (ls + [l])[1..] == ls[1..] + [l];
      SpansAppend(start + ls[0], ls[1..], l);
    }
  }

  lemma {:induction false} SumAppend(ls: seq<nat>, l: nat)
    ensures Sum(ls + [l]) == Sum(ls) + l
  {
    if ls == [] {
      assert ls + [l] == [l];
    } else {
      assert (ls + [l])[1..] == ls[1..] + [l];
      SumAppend(ls[1..], l);
    }
  }

  /** The inner loop: one rolling pass over the window. */
  method FindCut(t: Gear, p: Profile, rest: Bytes) returns (cut: nat)
    requires |rest| > p.minSize && p.maskBits < 64
    ensures cut == Cut(t, p, rest)
  {
    var hash: u64 := 0;
    var mask := Pow2(p.maskBits);
    cut := Window(p, rest);
    var i := 0;
    while i < Window(p, rest)
      invariant 0 <= i <= Window(p, rest)
      invariant hash == Hash(t, rest[..i]) && cut == Window(p, rest)
      invariant Scan(t, p, rest, 0) == Scan(t, p, rest, i)
    {
      assert rest[..i+1][..i] == rest[..i];
      hash := Roll(hash, t[rest[i]]);
      if i >= p.minSize && hash % mask == 0 {
        return i + 1;
      }
      i := i + 1;
    }
  }

  /** What the loop of `chunk` has done up to `start`. */
  ghost predicate ChunkedTo(t: Gear, p: Profile, data: Bytes, start: nat, ls: seq<nat>, spans: seq<Span>) {
    && start <= |data| && start == Sum(ls) && spans == Spans(0, ls)
    && (p.maxSize > 0 || |data| - start <= p.minSize) && (p.maxSize > 0 || |data| <= p.minSize)
    && Lengths(t, p, data) == ls + Lengths(t, p, data[start..])
  }

  lemma ChunkStep(t: Gear, p: Profile, data: Bytes, start: nat, ls: seq<nat>, spans: seq<Span>, cut: nat)
    requires ChunkedTo(t, p, data, start, ls, spans) && start < |data| && cut == Cut(t, p, data[start..])
    ensures cut > 0 && ChunkedTo(t, p, data, start + cut, ls + [cut], spans + [Span(start, cut)])
  {
    var rest := data[start..];
    CutProgress(t, p, rest);
    SpansAppend(0, ls, cut);
    SumAppend(ls, cut);
    assert rest[cut..] == data[start+cut..];
    assert ls + ([cut] + Lengths(t, p, data[start+cut..])) == (ls + [cut]) + Lengths(t, p, data[start+cut..]);
  }

  /** `chunk`. */
  method Chunk(t: Gear, p: Profile, data: Bytes) returns (m: Manifest)
    requires Chunkable(p, data)
    ensures m == Manifest(p.version, Spans(0, Lengths(t, p, data)))
    ensures forall k :: 0 <= k < |m.spans| ==>
      m.spans[k].offset <= |data| && CutRule(t, p, data[m.spans[k].offset..], m.spans[k].length)
  {
    var spans: seq<Span> := [];
    ghost var ls: seq<nat> := [];
    var start: nat := 0;
    assert data[0..] == data;
    while start < |data|
      invariant ChunkedTo(t, p, data, start, ls, spans)
      invariant forall k :: 0 <= k < |spans| ==>
        spans[k].offset <= |data| && CutRule(t, p, data[spans[k].offset..], spans[k].length)
    {
      var rest := data[start..];
      CutArithmetic(t, p, rest);
      var cut := |rest|;
      if |rest| > p.minSize {
        cut := FindCut(t, p, rest);
      }
      ChunkStep(t, p, data, start, ls, spans, cut);
      spans := spans + [Span(start, cut)];
      ls := ls + [cut];
      start := start + cut;
    }
    assert data[start..] == [];
    assert ls + [] == ls;
    return Manifest(p.version, spans);
  }

  /** Contiguous non-empty spans from `at` to the object's end. */
  ghost predicate Tiles(spans: seq<Span>, at: nat, len: nat) {
    if spans == [] then at == len
    else spans[0].offset == at && spans[0].length > 0 && Tiles(spans[1..], at + spans[0].length, len)
  }

  datatype CoverageError = NotContiguous | ZeroLengthSpan | WrongTotal

  /** `validate_coverage` accepts exactly the tilings. */
  method ValidateCoverage(m: Manifest, len: nat) returns (r: Result<(), CoverageError>)
    ensures r.Ok? <==> Tiles(m.spans, 0, len)
  {
    var expected: nat := 0;
    assert m.spans[0..] == m.spans;
    for i := 0 to |m.spans|
      invariant Tiles(m.spans, 0, len) <==> Tiles(m.spans[i..], expected, len)
    {
      var span := m.spans[i];
      assert m.spans[i..][1..] == m.spans[i+1..];
      if span.offset != expected {
        return Err(NotContiguous);
      }
      if span.length == 0 {
        return Err(ZeroLengthSpan);
      }
      expected := expected + span.length;
    }
    if expected != len {
      return Err(WrongTotal);
    }
    return Ok(());
  }

  lemma {:induction false} SpansTile(start: nat, ls: seq<nat>)
    requires forall i :: 0 <= i < |ls| ==> ls[i] > 0
    ensures Tiles(Spans(start, ls), start, start + Sum(ls))
    decreases |ls|
  {
    if ls != [] {
      SpansTile(start + ls[0], ls[1..]);
      assert Spans(start, ls)[1..] == Spans(start + ls[0], ls[1..]);
    }
  }

  /** The bytes a span list names, in order. */
  ghost function Reassemble(data: Bytes, spans: seq<Span>, at: nat): Bytes
    requires Tiles(spans, at, |data|)
  {
    if spans == [] then []
    else
      TileInside(spans, at, |data|);
      data[at..at+spans[0].length] + Reassemble(data, spans[1..], at + spans[0].length)
  }

  lemma {:induction false} TileInside(spans: seq<Span>, at: nat, len: nat)
    requires Tiles(spans, at, len)
    ensures at <= len && (spans != [] ==> at + spans[0].length <= len)
  {
    if spans != [] { TileInside(spans[1..], at + spans[0].length, len); }
  }

  lemma {:induction false} ReassembleAll(data: Bytes, spans: seq<Span>, at: nat)
    requires Tiles(spans, at, |data|)
    ensures at <= |data| && Reassemble(data, spans, at) == data[at..]
  {
    TileInside(spans, at, |data|);
    if spans != [] {
      ReassembleAll(data, spans[1..], at + spans[0].length);
    }
  }

  /** Whatever the profile, the chunks of an object tile it and reassemble to it, so any two
      profiles agree on the object and differ only in layout. */
  lemma ChunksReassemble(t: Gear, p: Profile, data: Bytes)
    requires p.maxSize > 0 || |data| <= p.minSize
    ensures var spans := Spans(0, Lengths(t, p, data));
      Tiles(spans, 0, |data|) && Reassemble(data, spans, 0) == data
  {
    LengthsCover(t, p, data);
    SpansTile(0, Lengths(t, p, data));
    ReassembleAll(data, Spans(0, Lengths(t, p, data)), 0);
  }
}
