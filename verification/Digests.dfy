/** Typed digests, their hexadecimal text and the `domain:hex` keys tables and packs use. All
    text is its UTF-8 bytes. */
module Digests {
  import opened Prelude

  datatype TypedDigest = TypedDigest(domain: Bytes, bytes: Bytes)

  /** A content hash; the digests in use are 32 bytes wide. */
  type Hash = Bytes -> Bytes

  ghost predicate Wide(hash: Hash) {
    forall b :: |hash(b)| == 32
  }

  const COLON: byte := 58

  function Digit(n: nat): byte
    requires n < 16
  {
    if n < 10 then 48 + n else 87 + n
  }

  function Hex(b: Bytes): (r: Bytes)
    ensures |r| == 2 * |b|
    ensures forall i :: 0 <= i < |r| ==> r[i] < 128
  {
    if b == [] then [] else [Digit(b[0] / 16), Digit(b[0] % 16)] + Hex(b[1..])
  }

  function DigestKey(d: TypedDigest): Bytes {
    d.domain + [COLON] + Hex(d.bytes)
  }

  lemma DigitInjective(x: byte, y: byte)
    requires Digit(x / 16) == Digit(y / 16) && Digit(x % 16) == Digit(y % 16)
    ensures x == y
  {
    assert x / 16 == y / 16;
    assert x % 16 == y % 16;
  }

  lemma {:induction false} HexInjective(a: Bytes, b: Bytes)
    requires Hex(a) == Hex(b)
    ensures a == b
  {
    if a != [] {
      var ha, hb := Hex(a), Hex(b);
      assert ha[0] == Digit(a[0] / 16) && ha[1] == Digit(a[0] % 16) && ha[2..] == Hex(a[1..]);
      assert hb[0] == Digit(b[0] / 16) && hb[1] == Digit(b[0] % 16) && hb[2..] == Hex(b[1..]);
      DigitInjective(a[0], b[0]);
      HexInjective(a[1..], b[1..]);
    }
  }

  /** Keys identify digests: the hexadecimal part has a fixed width. */
  lemma DigestKeyInjective(d: TypedDigest, e: TypedDigest)
    requires |d.bytes| == |e.bytes| && DigestKey(d) == DigestKey(e)
    ensures d == e
  {
    var k, l := DigestKey(d), DigestKey(e);
    var n := 2 * |d.bytes|;
    assert k[|k|-n..] == Hex(d.bytes) && l[|l|-n..] == Hex(e.bytes);
    HexInjective(d.bytes, e.bytes);
    assert k[..|k|-n-1] == d.domain && l[..|l|-n-1] == e.domain;
  }

  /** Two lower-case hexadecimal digits a byte, the high half first. */
  lemma {:induction false} HexText(b: Bytes, i: nat)
    requires i < |b|
    ensures Hex(b)[2*i] == Ascii("0123456789abcdef")[b[i] / 16]
    ensures Hex(b)[2*i+1] == Ascii("0123456789abcdef")[b[i] % 16]
  {
    if i == 0 {
      DigitText(b[0] / 16);
      DigitText(b[0] % 16);
    } else {
      HexText(b[1..], i - 1);
      assert Hex(b)[2..] == Hex(b[1..]);
      assert Hex(b)[2*i] == Hex(b)[2..][2*(i-1)] && Hex(b)[2*i+1] == Hex(b)[2..][2*(i-1)+1];
    }
  }

  lemma DigitText(n: nat)
    requires n < 16
    ensures Digit(n) == Ascii("0123456789abcdef")[n]
  {
  }

  lemma KeyText(d: TypedDigest)
    ensures DigestKey(d) == d.domain + Ascii(":") + Hex(d.bytes)
  {
    assert Ascii(":") == [COLON];
  }
}
