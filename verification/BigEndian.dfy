/** Fixed-width big-endian integers, as `to_be_bytes` and `from_be_bytes` define them. */
module BigEndian {
  import opened Prelude

  function Pow256(w: nat): (r: nat)
    ensures r > 0
  {
    if w == 0 then 1 else 256 * Pow256(w - 1)
  }

  lemma Widths()
    ensures Pow256(1) == 256 && Pow256(2) == U16_LIMIT && Pow256(4) == U32_LIMIT && Pow256(8) == U64_LIMIT
  {
    assert Pow256(2) == 256 * Pow256(1);
    assert Pow256(3) == 256 * Pow256(2) && Pow256(4) == 256 * Pow256(3);
    assert Pow256(5) == 256 * Pow256(4) && Pow256(6) == 256 * Pow256(5);
    assert Pow256(7) == 256 * Pow256(6) && Pow256(8) == 256 * Pow256(7);
  }

  /** The low `w` bytes of `v`, most significant first. */
  function Encode(v: nat, w: nat): (r: Bytes)
    ensures |r| == w
  {
    if w == 0 then [] else Encode(v / 256, w - 1) + [v % 256]
  }

  function Decode(b: Bytes): nat {
    if b == [] then 0 else 256 * Decode(b[..|b|-1]) + b[|b|-1]
  }

  lemma {:induction false} DecodeBound(b: Bytes)
    ensures Decode(b) < Pow256(|b|)
  {
    if b != [] { DecodeBound(b[..|b|-1]); }
  }

  lemma {:induction false} DecodeEncode(v: nat, w: nat)
    requires v < Pow256(w)
    ensures Decode(Encode(v, w)) == v
  {
    if w > 0 {
      DecodeEncode(v / 256, w - 1);
      var e := Encode(v, w);
      assert e[..|e|-1] == Encode(v / 256, w - 1);
    }
  }

  lemma {:induction false} EncodeDecode(b: Bytes)
    ensures Encode(Decode(b), |b|) == b
  {
    if b != [] {
      EncodeDecode(b[..|b|-1]);
      assert Decode(b) / 256 == Decode(b[..|b|-1]) && Decode(b) % 256 == b[|b|-1];
      assert b == b[..|b|-1] + [b[|b|-1]];
    }
  }

  lemma DivTwice(v: nat, p: nat)
    requires p > 0
    ensures v / 256 / p == v / (256 * p)
  {
    var q := v / 256 / p;
    var r := v / 256 % p;
    assert v / 256 == q * p + r;
    assert v == q * (256 * p) + (256 * r + v % 256);
    DivUnique(v, 256 * p, q, 256 * r + v % 256);
  }

  lemma MultiplesApart(a: nat, b: nat, d: nat)
    ensures a < b ==> a * d + d <= b * d
  {
    if a < b {
      var k: nat := b - a - 1;
      assert b * d == (a + 1 + k) * d == a * d + d + k * d;
    }
  }

  lemma DivUnique(v: nat, d: nat, q: nat, r: nat)
    requires d > 0 && v == q * d + r && r < d
    ensures v / d == q
  {
    var other := v / d;
    assert v == other * d + v % d;
    MultiplesApart(other, q, d);
    MultiplesApart(q, other, d);
  }

  /** Most significant first: byte `i` of `w` weighs 256 to the `w - 1 - i`. */
  lemma {:induction false} ByteAt(v: nat, w: nat, i: nat)
    requires i < w
    ensures Encode(v, w)[i] == v / Pow256(w - 1 - i) % 256
  {
    if i < w - 1 {
      ByteAt(v / 256, w - 1, i);
      DivTwice(v, Pow256(w - 2 - i));
    }
  }
}
