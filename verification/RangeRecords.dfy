/** The text of one range-journal record, `range|offset|length|checksum`, and its parser. */
module RangeRecords {
  import opened Prelude
  import opened Ranges
  import Utf8
  import BE = BigEndian

  const BAR: byte := 124
  const PLUS: byte := 43
  const ZERO: byte := 48
  const RANGE: Bytes := [114, 97, 110, 103, 101]

  /** One journal record: the range and the checksum text of the bytes it carried. */
  datatype Record = Record(range: Range, sum: Bytes)

  predicate IsDigit(b: byte) { 48 <= b <= 57 }

  function Decimal(n: nat): (r: Bytes)
    ensures r != [] && forall i :: 0 <= i < |r| ==> IsDigit(r[i])
  {
    if n < 10 then [ZERO + n] else Decimal(n / 10) + [ZERO + n % 10]
  }

  function Value(digits: Bytes): nat
    requires forall i :: 0 <= i < |digits| ==> IsDigit(digits[i])
  {
    if digits == [] then 0
    else
      assert IsDigit(digits[|digits|-1]);
      10 * Value(digits[..|digits|-1]) + (digits[|digits|-1] - ZERO)
  }

  /** `u64::from_str`: an optional plus sign, then one or more digits of a value that fits. */
  function ParseU64(b: Bytes): Option<u64> {
    var digits := if b != [] && b[0] == PLUS then b[1..] else b;
    if digits == [] || exists i :: 0 <= i < |digits| && !IsDigit(digits[i]) then None
    else if Value(digits) < U64_LIMIT then Some(Value(digits)) else None
  }

  /** `str::split('|')`. */
  function Split(b: Bytes): (r: seq<Bytes>)
    ensures |r| > 0
  {
    if b == [] then [[]]
    else if b[0] == BAR then [[]] + Split(b[1..])
    else var rest := Split(b[1..]); [[b[0]] + rest[0]] + rest[1..]
  }

  function Encode(rec: Record): Bytes {
    RANGE + [BAR] + (Decimal(rec.range.offset) + [BAR] + (Decimal(rec.range.length) + [BAR] + rec.sum))
  }

  /** `decode_range_record`. */
  function Decode(payload: Bytes): Option<Record> {
    if !Utf8.Valid(payload) then None
    else
      var parts := Split(payload);
      if |parts| != 4 || parts[0] != RANGE then None
      else
        match (ParseU64(parts[1]), ParseU64(parts[2]))
        case (Some(offset), Some(length)) => Some(Record(Range(offset, length), parts[3]))
        case _ => None
  }

  // ---------------------------------------------------------------- round trip

  lemma {:induction false} ValueDecimal(n: nat)
    ensures Value(Decimal(n)) == n
  {
    if n >= 10 {
      var d := Decimal(n);
      assert d[..|d|-1] == Decimal(n / 10);
      ValueDecimal(n / 10);
    } else {
      assert [ZERO + n][..0] == [];
    }
  }

  lemma ParseDecimal(n: u64)
    ensures ParseU64(Decimal(n)) == Some(n)
  {
    var d := Decimal(n);
    assert IsDigit(d[0]);
    ValueDecimal(n);
  }

  lemma {:induction false} SplitFirst(a: Bytes, rest: Bytes)
    requires BAR !in a
    ensures Split(a + [BAR] + rest) == [a] + Split(rest)
  {
    var b := a + [BAR] + rest;
    if a == [] {
      assert b[1..] == rest;
    } else {
      assert b[1..] == a[1..] + [BAR] + rest;
      SplitFirst(a[1..], rest);
      assert [a[0]] + a[1..] == a;
      assert ([a[1..]] + Split(rest))[1..] == Split(rest);
    }
  }

  lemma {:induction false} SplitLast(a: Bytes)
    requires BAR !in a
    ensures Split(a) == [a]
  {
    if a != [] {
      SplitLast(a[1..]);
      assert [a[0]] + a[1..] == a;
    }
  }

  /** Checksum text as `range_checksum` prints it. */
  ghost predicate PlainText(sum: Bytes) {
    BAR !in sum && forall i :: 0 <= i < |sum| ==> sum[i] < 0x80
  }

  lemma EncodeAscii(rec: Record)
    requires PlainText(rec.sum)
    ensures Utf8.Valid(Encode(rec))
  {
    var p := Encode(rec);
    forall i | 0 <= i < |p| ensures p[i] < 0x80 {
      assert p[i] in RANGE || p[i] == BAR || p[i] in Decimal(rec.range.offset) || p[i] in Decimal(rec.range.length)
        || p[i] in rec.sum;
    }
    Utf8.AsciiValid(p);
  }

  /** What the writer appends, replay reads back. */
  lemma RecordRoundTrip(rec: Record)
    requires rec.range.offset < U64_LIMIT && rec.range.length < U64_LIMIT && PlainText(rec.sum)
    ensures Decode(Encode(rec)) == Some(rec)
  {
    var offset, length := Decimal(rec.range.offset), Decimal(rec.range.length);
    EncodeAscii(rec);
    SplitFirst(RANGE, offset + [BAR] + (length + [BAR] + rec.sum));
    SplitFirst(offset, length + [BAR] + rec.sum);
    SplitFirst(length, rec.sum);
    SplitLast(rec.sum);
    ParseDecimal(rec.range.offset);
    ParseDecimal(rec.range.length);
  }

  // ---------------------------------------------------------------- length

  function Pow10(k: nat): (r: nat)
    ensures r > 0
  {
    if k == 0 then 1 else 10 * Pow10(k - 1)
  }

  lemma {:induction false} DecimalLength(n: nat, k: nat)
    requires k > 0 && n < Pow10(k)
    ensures |Decimal(n)| <= k
  {
    if n >= 10 { DecimalLength(n / 10, k - 1); }
  }

  lemma U64Digits(n: u64)
    ensures |Decimal(n)| <= 20
  {
    assert Pow10(5) == 100000;
    assert Pow10(10) == 100000 * Pow10(5);
    assert Pow10(15) == 100000 * Pow10(10);
    assert Pow10(20) == 100000 * Pow10(15);
    DecimalLength(n, 20);
  }

  lemma RecordShort(rec: Record)
    requires rec.range.offset < U64_LIMIT && rec.range.length < U64_LIMIT
    ensures |Encode(rec)| <= 48 + |rec.sum|
  {
    U64Digits(rec.range.offset);
    U64Digits(rec.range.length);
  }

  // ---------------------------------------------------------------- as text

  lemma TenTimes(n: nat, p: nat)
    requires p > 0
    ensures n / 10 / p == n / (10 * p)
  {
    var q := n / 10 / p;
    var r := n / 10 % p;
    assert n / 10 == q * p + r;
    assert n == q * (10 * p) + (10 * r + n % 10);
    BE.DivUnique(n, 10 * p, q, 10 * r + n % 10);
  }

  /** Decimal digits in ASCII, the last one for the units: digit `k` from the end is worth ten to
      the `k`. */
  lemma {:induction false} DecimalText(n: nat, k: nat)
    requires k < |Decimal(n)|
    ensures Decimal(n)[|Decimal(n)|-1-k] == 48 + n / Pow10(k) % 10
  {
    if k > 0 {
      var init := Decimal(n / 10);
      DecimalText(n / 10, k - 1);
      TenTimes(n, Pow10(k - 1));
      assert Decimal(n)[|Decimal(n)|-1-k] == init[|init|-1-(k-1)];
    }
  }

  lemma RecordText(rec: Record)
    ensures Encode(rec) ==
      Ascii("range|") + Decimal(rec.range.offset) + Ascii("|") + Decimal(rec.range.length) + Ascii("|") + rec.sum
  {
    var o, l := Decimal(rec.range.offset), Decimal(rec.range.length);
    assert RANGE + [BAR] == Ascii("range|") && [BAR] == Ascii("|");
    assert RANGE + [BAR] + (o + [BAR] + (l + [BAR] + rec.sum)) == RANGE + [BAR] + o + [BAR] + l + [BAR] + rec.sum;
  }
}
