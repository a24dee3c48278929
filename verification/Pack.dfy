/** The v1 small-object pack: a canonical byte format with a bounded, fully validated index. */
module Pack {
  import opened Prelude
  import opened Digests
  import opened Parsing
  import Lex = Lexicographic
  import BE = BigEndian
  import Utf8

  /** "RBSPACK1". */
  const MAGIC: Bytes := [82, 66, 83, 80, 65, 67, 75, 49]

  const MAX_MEMBERS: nat := 4096
  const MAX_INDEX: nat := 1024 * 1024

  datatype PackError =
    | EmptyPack
    | TooManyMembers(count: nat)
    | MemberDigestMismatch(claimed: Bytes)
    | DuplicateDivergentMember(digest: Bytes)
    | BadMagic
    | Truncated
    | IndexTooLarge(declared: nat)
    | BrokenTiling(at: Bytes)
    | MalformedEntry

  datatype Member = Member(key: Bytes, offset: nat, length: nat)
  datatype PackIndex = PackIndex(members: seq<Member>, payloadStart: nat, packLen: nat)

  // ---------------------------------------------------------------- the format

  function EntryBytes(m: Member): Bytes {
    BE.Encode(|m.key|, 2) + m.key + BE.Encode(m.offset, 8) + BE.Encode(m.length, 8)
  }

  function IndexBytes(ms: seq<Member>): Bytes {
    Concat(EntryBytes, ms)
  }

  function Header(count: nat, indexLen: nat): Bytes {
    MAGIC + BE.Encode(count, 4) + BE.Encode(indexLen, 8)
  }

  /** The encoding of an index and its payload. */
  function Encoding(ms: seq<Member>, payload: Bytes): Bytes {
    Header(|ms|, |IndexBytes(ms)|) + IndexBytes(ms) + payload
  }

  predicate EntryFits(m: Member) {
    |m.key| < U16_LIMIT && Utf8.Valid(m.key) && m.offset + m.length < U64_LIMIT
  }

  /** Where the next entry must start, and the key it must exceed. */
  datatype Place = Place(at: nat, above: Option<Bytes>)

  const FRONT: Place := Place(0, None)

  function NextPlace(m: Member): Place {
    Place(m.offset + m.length, Some(m.key))
  }

  /** An entry that fits its fields, tiles and ascends. */
  predicate EntryOk(m: Member, p: Place) {
    EntryFits(m) && m.offset == p.at && (p.above.Some? ==> Lex.Below(p.above.value, m.key))
  }

  /** Spans tile from `p` on and keys ascend. */
  predicate Laid(ms: seq<Member>, p: Place) {
    Chain(EntryOk, NextPlace, ms, p)
  }

  function TotalLength(ms: seq<Member>): nat {
    if ms == [] then 0 else ms[0].length + TotalLength(ms[1..])
  }

  /** The indexes the format admits over a payload. */
  predicate Admissible(ms: seq<Member>, payload: Bytes) {
    && 1 <= |ms| <= MAX_MEMBERS && |IndexBytes(ms)| <= MAX_INDEX
    && Laid(ms, FRONT) && TotalLength(ms) == |payload|
  }

  // ---------------------------------------------------------------- parsing

  function ParseEntry(b: Bytes, p: Place): Result<Parsed<Member>, PackError> {
    if |b| < 2 then Err(Truncated)
    else
      var n := BE.Decode(b[..2]);
      if |b| < 2 + n then Err(Truncated)
      else
        var key := b[2..2+n];
        if !Utf8.Valid(key) then Err(MalformedEntry)
        else if |b| < 2 + n + 16 then Err(Truncated)
        else
          var offset, length := BE.Decode(b[2+n..10+n]), BE.Decode(b[10+n..18+n]);
          if offset != p.at then Err(BrokenTiling(key))
          else if offset + length >= U64_LIMIT then Err(BrokenTiling(key))
          else if p.above.Some? && !Lex.Below(p.above.value, key) then Err(BrokenTiling(key))
          else Ok(Parsed(Member(key, offset, length), b[18+n..]))
  }

  function LastKey(ms: seq<Member>): Bytes {
    if ms == [] then [] else ms[|ms|-1].key
  }

  /** Exactly `count` entries, and nothing behind them. */
  function ParseIndex(index: Bytes, count: nat): Result<seq<Member>, PackError> {
    match Many(ParseEntry, NextPlace, index, count, FRONT)
    case Err(e) => Err(e)
    case Ok(Parsed(ms, left)) => if left != [] then Err(Truncated) else Ok(ms)
  }

  /** The index and the payload behind a header. */
  function ParseBody(body: Bytes, count: nat, indexLen: nat): Result<seq<Member>, PackError> {
    if |body| < indexLen then Err(Truncated)
    else
      match ParseIndex(body[..indexLen], count)
      case Err(e) => Err(e)
      case Ok(ms) => if |body| - indexLen != TotalLength(ms) then Err(BrokenTiling(LastKey(ms))) else Ok(ms)
  }

  function Parse(pack: Bytes): Result<PackIndex, PackError> {
    if |pack| < 20 then Err(Truncated)
    else if pack[..8] != MAGIC then Err(BadMagic)
    else
      var count, indexLen := BE.Decode(pack[8..12]), BE.Decode(pack[12..20]);
      if count == 0 then Err(EmptyPack)
      else if count > MAX_MEMBERS then Err(TooManyMembers(count))
      else if indexLen > MAX_INDEX then Err(IndexTooLarge(indexLen))
      else
        match ParseBody(pack[20..], count, indexLen)
        case Err(e) => Err(e)
        case Ok(ms) => Ok(PackIndex(ms, 20 + indexLen, |pack|))
  }

  // ---------------------------------------------------------------- parsing is exact

  lemma Pieces(b: Bytes, i: nat, j: nat, k: nat, l: nat)
    requires i <= j <= k <= l <= |b|
    ensures b == b[..i] + b[i..j] + b[j..k] + b[k..l] + b[l..]
  {
  }

  /** Whatever an entry parse accepts is that entry's encoding. */
  lemma EntrySound(b: Bytes, p: Place, m: Member, rest: Bytes)
    requires ParseEntry(b, p) == Ok(Parsed(m, rest))
    ensures b == EntryBytes(m) + rest && EntryOk(m, p)
  {
    var n := BE.Decode(b[..2]);
    BE.Widths();
    BE.DecodeBound(b[..2]);
    BE.EncodeDecode(b[..2]);
    BE.EncodeDecode(b[2+n..10+n]);
    BE.EncodeDecode(b[10+n..18+n]);
    Pieces(b, 2, 2 + n, 10 + n, 18 + n);
  }

  /** An entry's encoding parses back, whatever follows it. */
  lemma EntryComplete(m: Member, rest: Bytes, p: Place)
    requires EntryOk(m, p)
    ensures ParseEntry(EntryBytes(m) + rest, p) == Ok(Parsed(m, rest))
  {
    var b, n := EntryBytes(m) + rest, |m.key|;
    BE.Widths();
    BE.DecodeEncode(n, 2);
    BE.DecodeEncode(m.offset, 8);
    BE.DecodeEncode(m.length, 8);
    assert b[..2] == BE.Encode(n, 2);
    assert b[2..2+n] == m.key;
    assert b[2+n..10+n] == BE.Encode(m.offset, 8);
    assert b[10+n..18+n] == BE.Encode(m.length, 8);
    assert b[18+n..] == rest;
  }

  lemma EntriesExact()
    ensures Sound(ParseEntry, EntryBytes, EntryOk) && Complete(ParseEntry, EntryBytes, EntryOk)
  {
    forall b, p | ParseEntry(b, p).Ok?
      ensures var r := ParseEntry(b, p).value; b == EntryBytes(r.value) + r.rest && EntryOk(r.value, p)
    {
      EntrySound(b, p, ParseEntry(b, p).value.value, ParseEntry(b, p).value.rest);
    }
    forall m, p, rest | EntryOk(m, p) ensures ParseEntry(EntryBytes(m) + rest, p) == Ok(Parsed(m, rest)) {
      EntryComplete(m, rest, p);
    }
  }

  lemma Slices(a: Bytes, b: Bytes, c: Bytes, d: Bytes)
    ensures var s := a + b + c + d; var i, j := |a| + |b|, |a| + |b| + |c|;
      s[..|a|] == a && s[|a|..i] == b && s[i..j] == c && s[j..] == d
  {
  }

  lemma HeaderParts(count: nat, indexLen: nat, rest: Bytes)
    requires count < U32_LIMIT && indexLen < U64_LIMIT
    ensures var pack := Header(count, indexLen) + rest;
      && |pack| == 20 + |rest| && pack[..8] == MAGIC && pack[20..] == rest
      && BE.Decode(pack[8..12]) == count && BE.Decode(pack[12..20]) == indexLen
  {
    BE.Widths();
    BE.DecodeEncode(count, 4);
    BE.DecodeEncode(indexLen, 8);
    Slices(MAGIC, BE.Encode(count, 4), BE.Encode(indexLen, 8), rest);
  }

  lemma HeaderFromBytes(pack: Bytes)
    requires |pack| >= 20 && pack[..8] == MAGIC
    ensures pack == Header(BE.Decode(pack[8..12]), BE.Decode(pack[12..20])) + pack[20..]
  {
    BE.EncodeDecode(pack[8..12]);
    BE.EncodeDecode(pack[12..20]);
    assert pack == pack[..8] + pack[8..12] + pack[12..20] + pack[20..];
  }

  lemma IndexSound(index: Bytes, count: nat, ms: seq<Member>)
    requires ParseIndex(index, count) == Ok(ms)
    ensures index == IndexBytes(ms) && |ms| == count && Laid(ms, FRONT)
  {
    EntriesExact();
    ManySound(ParseEntry, NextPlace, EntryBytes, EntryOk, index, count, FRONT, ms, []);
  }

  lemma IndexComplete(ms: seq<Member>)
    requires Laid(ms, FRONT)
    ensures ParseIndex(IndexBytes(ms), |ms|) == Ok(ms)
  {
    EntriesExact();
    ManyComplete(ParseEntry, NextPlace, EntryBytes, EntryOk, ms, [], FRONT);
    assert IndexBytes(ms) + [] == IndexBytes(ms);
  }

  lemma BodySound(body: Bytes, count: nat, indexLen: nat, ms: seq<Member>)
    requires ParseBody(body, count, indexLen) == Ok(ms)
    ensures |ms| == count && Laid(ms, FRONT)
    ensures |IndexBytes(ms)| == indexLen <= |body| && TotalLength(ms) == |body| - indexLen
    ensures body == IndexBytes(ms) + body[indexLen..]
  {
    IndexSound(body[..indexLen], count, ms);
    assert body == body[..indexLen] + body[indexLen..];
  }

  lemma BodyComplete(ms: seq<Member>, payload: Bytes)
    requires Laid(ms, FRONT) && TotalLength(ms) == |payload|
    ensures ParseBody(IndexBytes(ms) + payload, |ms|, |IndexBytes(ms)|) == Ok(ms)
  {
    IndexComplete(ms);
    assert (IndexBytes(ms) + payload)[..|IndexBytes(ms)|] == IndexBytes(ms);
  }

  /** Any byte string the parser accepts is exactly the encoding of its index and payload, with
      strictly ascending keys and spans partitioning the payload. */
  lemma ParseSound(pack: Bytes, ix: PackIndex)
    requires Parse(pack) == Ok(ix)
    ensures ix.payloadStart == 20 + |IndexBytes(ix.members)| <= |pack| == ix.packLen
    ensures pack == Encoding(ix.members, pack[ix.payloadStart..])
    ensures Admissible(ix.members, pack[ix.payloadStart..])
  {
    var count, indexLen := BE.Decode(pack[8..12]), BE.Decode(pack[12..20]);
    BodySound(pack[20..], count, indexLen, ix.members);
    assert pack[20..][indexLen..] == pack[20+indexLen..];
    HeaderFromBytes(pack);
    Rebracket(Header(count, indexLen), IndexBytes(ix.members), pack[20+indexLen..]);
  }

  lemma ParseHeaded(pack: Bytes, count: nat, indexLen: nat, ms: seq<Member>)
    requires |pack| >= 20 && pack[..8] == MAGIC
    requires BE.Decode(pack[8..12]) == count && BE.Decode(pack[12..20]) == indexLen
    requires 1 <= count <= MAX_MEMBERS && indexLen <= MAX_INDEX && ParseBody(pack[20..], count, indexLen) == Ok(ms)
    ensures Parse(pack) == Ok(PackIndex(ms, 20 + indexLen, |pack|))
  {
  }

  /** Every admissible index over a payload parses back from its encoding. */
  lemma ParseComplete(ms: seq<Member>, payload: Bytes)
    requires Admissible(ms, payload)
    ensures Parse(Encoding(ms, payload)) ==
      Ok(PackIndex(ms, 20 + |IndexBytes(ms)|, 20 + |IndexBytes(ms)| + |payload|))
  {
    var index := IndexBytes(ms);
    Rebracket(Header(|ms|, |index|), index, payload);
    HeaderParts(|ms|, |index|, index + payload);
    BodyComplete(ms, payload);
    ParseHeaded(Encoding(ms, payload), |ms|, |index|, ms);
  }

  /** `PackIndex::parse`. */
  method ParsePack(pack: Bytes) returns (r: Result<PackIndex, PackError>)
    ensures r == Parse(pack)
    ensures r.Ok? ==> pack == Encoding(r.value.members, pack[r.value.payloadStart..])
  {
    if |pack| < 20 { return Err(Truncated); }
    if pack[..8] != MAGIC { return Err(BadMagic); }
    var count := BE.Decode(pack[8..12]);
    if count == 0 { return Err(EmptyPack); }
    if count > MAX_MEMBERS { return Err(TooManyMembers(count)); }
    var indexLen := BE.Decode(pack[12..20]);
    if indexLen > MAX_INDEX { return Err(IndexTooLarge(indexLen)); }
    if |pack| < 20 + indexLen { return Err(Truncated); }
    assert pack[20..][..indexLen] == pack[20..20+indexLen];
    var entries := DecodeMany(ParseEntry, NextPlace, pack[20..20+indexLen], count, FRONT);
    match entries
    case Err(e) => return Err(e);
    case Ok(Parsed(members, left)) =>
      if left != [] { return Err(Truncated); }
      if |pack| - 20 - indexLen != TotalLength(members) { return Err(BrokenTiling(LastKey(members))); }
      r := Ok(PackIndex(members, 20 + indexLen, |pack|));
      ParseSound(pack, r.value);
  }

  // ---------------------------------------------------------------- member access

  lemma {:induction false} LaidAscending(ms: seq<Member>, p: Place, i: nat)
    requires Laid(ms, p) && i < |ms|
    ensures p.above.Some? ==> Lex.Below(p.above.value, ms[i].key)
  {
    if i > 0 {
      LaidAscending(ms[1..], NextPlace(ms[0]), i - 1);
      if p.above.Some? { Lex.BelowTransitive(p.above.value, ms[0].key, ms[i].key); }
    }
  }

  /** Keys strictly ascend, so a digest has at most one member. */
  lemma {:induction false} KeysAscend(ms: seq<Member>, p: Place, i: nat, j: nat)
    requires Laid(ms, p) && i < j < |ms|
    ensures Lex.Below(ms[i].key, ms[j].key)
  {
    if i == 0 {
      LaidAscending(ms[1..], NextPlace(ms[0]), j - 1);
    } else {
      KeysAscend(ms[1..], NextPlace(ms[0]), i - 1, j - 1);
    }
  }

  /** Where a span starts: the lengths before it. */
  lemma {:induction false} SpanStarts(ms: seq<Member>, p: Place, i: nat)
    requires Laid(ms, p) && i <= |ms|
    ensures TotalLength(ms[..i]) <= TotalLength(ms)
    ensures i < |ms| ==> ms[i].offset == p.at + TotalLength(ms[..i])
    ensures i < |ms| ==> ms[i].offset + ms[i].length == p.at + TotalLength(ms[..i+1])
  {
    if i > 0 {
      SpanStarts(ms[1..], NextPlace(ms[0]), i - 1);
      assert ms[..i][1..] == ms[1..][..i-1];
      if i < |ms| { assert ms[..i+1][1..] == ms[1..][..i]; }
    } else if ms != [] {
      assert ms[..1][1..] == [];
    }
  }

  /** Every payload byte lies in some span. */
  lemma {:induction false} SpansCover(ms: seq<Member>, p: Place, x: nat)
    requires Laid(ms, p) && p.at <= x < p.at + TotalLength(ms)
    ensures exists i :: 0 <= i < |ms| && ms[i].offset <= x < ms[i].offset + ms[i].length
  {
    if x < p.at + ms[0].length {
      assert ms[0].offset <= x < ms[0].offset + ms[0].length;
    } else {
      SpansCover(ms[1..], NextPlace(ms[0]), x);
      var i :| 0 <= i < |ms[1..]| && ms[1..][i].offset <= x < ms[1..][i].offset + ms[1..][i].length;
      assert ms[i+1] == ms[1..][i];
    }
  }

  /** No byte lies in two spans. */
  lemma {:induction false} SpansDisjoint(ms: seq<Member>, p: Place, i: nat, j: nat)
    requires Laid(ms, p) && i < j < |ms|
    ensures ms[i].offset + ms[i].length <= ms[j].offset
    decreases j
  {
    if i == 0 {
      SpanStarts(ms, p, j);
      assert ms[..j][0] == ms[0];
    } else {
      SpansDisjoint(ms[1..], NextPlace(ms[0]), i - 1, j - 1);
    }
  }

  /** What `parse` establishes of the index it returns. */
  predicate Validated(ix: PackIndex) {
    Laid(ix.members, FRONT) && ix.packLen == ix.payloadStart + TotalLength(ix.members)
  }

  method Locate(ms: seq<Member>, key: Bytes) returns (found: Option<nat>)
    requires Laid(ms, FRONT)
    ensures found.Some? ==> found.value < |ms| && ms[found.value].key == key
    ensures found.None? ==> forall i :: 0 <= i < |ms| ==> ms[i].key != key
  {
    var lo, hi := 0, |ms|;
    while lo < hi
      invariant lo <= hi <= |ms|
      invariant forall i :: 0 <= i < lo ==> Lex.Below(ms[i].key, key)
      invariant forall i :: hi <= i < |ms| ==> Lex.Below(key, ms[i].key)
    {
      var mid := (lo + hi) / 2;
      if ms[mid].key == key { return Some(mid); }
      Lex.BelowTrichotomy(ms[mid].key, key);
      if Lex.Below(ms[mid].key, key) {
        forall i | 0 <= i < mid ensures Lex.Below(ms[i].key, key) {
          KeysAscend(ms, FRONT, i, mid);
          Lex.BelowTransitive(ms[i].key, ms[mid].key, key);
        }
        lo := mid + 1;
      } else {
        forall i | mid < i < |ms| ensures Lex.Below(key, ms[i].key) {
          KeysAscend(ms, FRONT, mid, i);
          Lex.BelowTransitive(key, ms[mid].key, ms[i].key);
        }
        hi := mid;
      }
    }
    found := None;
    forall i | 0 <= i < |ms| ensures ms[i].key != key {
      Lex.BelowIrreflexive(key);
    }
  }

  /** `pack.get(start..start + length)`. */
  function Get(pack: Bytes, start: nat, length: nat): Option<Bytes> {
    if start + length <= |pack| then Some(pack[start..start+length]) else None
  }

  function Span(ix: PackIndex, pack: Bytes, i: nat): Option<Bytes>
    requires i < |ix.members|
  {
    Get(pack, ix.payloadStart + ix.members[i].offset, ix.members[i].length)
  }

  lemma SpanInside(ix: PackIndex, i: nat)
    requires Validated(ix) && i < |ix.members|
    ensures ix.payloadStart + ix.members[i].offset + ix.members[i].length <= ix.packLen
  {
    SpanStarts(ix.members, FRONT, i);
    SpanStarts(ix.members, FRONT, i + 1);
  }

  /** `member_bytes`: exactly the member's own span, and nothing for a digest the pack lacks. */
  method MemberBytes(ix: PackIndex, pack: Bytes, digest: TypedDigest) returns (r: Option<Bytes>)
    requires Validated(ix)
    ensures |pack| != ix.packLen ==> r.None?
    ensures r.None? && |pack| == ix.packLen ==>
      forall i :: 0 <= i < |ix.members| ==> ix.members[i].key != DigestKey(digest)
    ensures |pack| == ix.packLen ==> forall i :: 0 <= i < |ix.members| && ix.members[i].key == DigestKey(digest) ==>
      r.Some? && r == Span(ix, pack, i)
  {
    if |pack| != ix.packLen { return None; }
    var found := Locate(ix.members, DigestKey(digest));
    if found.None? { return None; }
    var i := found.value;
    SpanInside(ix, i);
    r := Span(ix, pack, i);
    forall j | 0 <= j < |ix.members| && ix.members[j].key == DigestKey(digest) ensures j == i {
      OnlyMember(ix.members, i, j);
    }
  }

  lemma OnlyMember(ms: seq<Member>, i: nat, j: nat)
    requires Laid(ms, FRONT) && i < |ms| && j < |ms| && ms[i].key == ms[j].key
    ensures i == j
  {
    Lex.BelowIrreflexive(ms[i].key);
    if i < j { KeysAscend(ms, FRONT, i, j); }
    if j < i { KeysAscend(ms, FRONT, j, i); }
  }

  // ---------------------------------------------------------------- the header, by its bytes

  lemma MagicText()
    ensures MAGIC == Ascii("RBSPACK1")
  {
  }

  /** Refusals of the header: too short, another format, no member, more than 4096, an index over a
      mebibyte. They come in this order, and nothing else is refused as these. */
  lemma HeaderRefusals(pack: Bytes)
    ensures Parse(pack) == Err(BadMagic) <==> |pack| >= 20 && pack[..8] != Ascii("RBSPACK1")
    ensures |pack| < 20 ==> Parse(pack) == Err(Truncated)
    ensures |pack| >= 20 && pack[..8] == Ascii("RBSPACK1") ==>
      var count, indexLen := BE.Decode(pack[8..12]), BE.Decode(pack[12..20]);
      && (Parse(pack) == Err(EmptyPack) <==> count == 0)
      && (Parse(pack) == Err(TooManyMembers(count)) <==> count > 4096)
      && (Parse(pack) == Err(IndexTooLarge(indexLen)) <==> 0 < count <= 4096 && indexLen > 1048576)
      && (0 < count <= 4096 && |pack| - 20 < indexLen <= 1048576 ==> Parse(pack) == Err(Truncated))
  {
    MagicText();
    if |pack| >= 20 && pack[..8] == MAGIC {
      var count, indexLen := BE.Decode(pack[8..12]), BE.Decode(pack[12..20]);
      BodyRefusals(pack[20..], count, indexLen);
    }
  }

  /** What an index can be refused as. */
  predicate IndexError(e: PackError) {
    e.Truncated? || e.MalformedEntry? || e.BrokenTiling?
  }

  lemma EntryRefusal(b: Bytes, p: Place)
    ensures ParseEntry(b, p).Err? ==> IndexError(ParseEntry(b, p).error)
  {
  }

  lemma BodyRefusals(body: Bytes, count: nat, indexLen: nat)
    ensures ParseBody(body, count, indexLen).Err? ==> IndexError(ParseBody(body, count, indexLen).error)
  {
    forall b, p ensures ParseEntry(b, p).Err? ==> IndexError(ParseEntry(b, p).error) {
      EntryRefusal(b, p);
    }
    if |body| >= indexLen { ManyRefuses(ParseEntry, NextPlace, body[..indexLen], count, FRONT, IndexError); }
  }

  /** Refusals of an entry, by its bytes: cut short, a key that is not UTF-8, and, blamed on the key,
      an offset other than where the last span ended, an end past 64 bits, a key not above the last. */
  lemma EntryByBytes(b: Bytes, p: Place)
    ensures var r := ParseEntry(b, p);
      if |b| < 2 then r == Err(Truncated)
      else
        var n := 256 * (b[0] as int) + b[1] as int;
        if |b| < 2 + n then r == Err(Truncated)
        else
          var key := b[2..2+n];
          if !Utf8.Valid(key) then r == Err(MalformedEntry)
          else if |b| < 18 + n then r == Err(Truncated)
          else
            var offset, length := BE.Decode(b[2+n..10+n]), BE.Decode(b[10+n..18+n]);
            if offset != p.at || offset + length > 0xFFFF_FFFF_FFFF_FFFF
              || (p.above.Some? && (p.above.value == key || Lex.Below(key, p.above.value)))
            then r == Err(BrokenTiling(key))
            else r == Ok(Parsed(Member(key, offset, length), b[18+n..]))
  {
    if |b| >= 2 {
      assert b[..2][..1] == [b[0]] && [b[0]][..0] == [];
      assert BE.Decode([b[0]]) == b[0];
      var n := 256 * (b[0] as int) + b[1] as int;
      assert BE.Decode(b[..2]) == n;
      if |b| >= 2 + n && p.above.Some? { Lex.BelowTrichotomy(p.above.value, b[2..2+n]); }
    }
  }

  /** The whole pack: name, member count, index length, entries, payload. */
  lemma PackLayout(ms: seq<Member>, payload: Bytes)
    ensures Encoding(ms, payload) ==
      Ascii("RBSPACK1") + BE.Encode(|ms|, 4) + BE.Encode(|IndexBytes(ms)|, 8) + IndexBytes(ms) + payload
  {
    MagicText();
  }
}
