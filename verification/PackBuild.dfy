/** Building a pack from `(digest, bytes)` members. The content hash is a parameter. */
module PackBuild {
  import opened Prelude
  import opened Sorting
  import opened Digests
  import opened Pack
  import opened Parsing
  import Lex = Lexicographic
  import Utf8
  import Domains

  datatype Item = Item(digest: TypedDigest, bytes: Bytes)

  /** A member on its way into the pack: its key and its contents. */
  datatype Keyed = Keyed(key: Bytes, bytes: Bytes)

  function ContentId(hash: Hash, bytes: Bytes): TypedDigest {
    TypedDigest(Domains.CONTENT, hash(bytes))
  }

  function KeyedItem(i: Item): Keyed {
    Keyed(DigestKey(i.digest), i.bytes)
  }

  // ---------------------------------------------------------------- the specification

  function Existing(cs: seq<Keyed>, key: Bytes): (r: Option<Bytes>)
    ensures r.Some? ==> Keyed(key, r.value) in cs
    ensures r.None? ==> forall c :: c in cs ==> c.key != key
  {
    if cs == [] then None
    else if cs[0].key == key then
      assert cs[0] == Keyed(key, cs[0].bytes);
      Some(cs[0].bytes)
    else Existing(cs[1..], key)
  }

  /** Verified, deduplicated members in the order offered. */
  function Collect(items: seq<Item>, hash: Hash, done: seq<Keyed>): Result<seq<Keyed>, PackError>
    decreases |items|
  {
    if items == [] then Ok(done)
    else
      var k := KeyedItem(items[0]);
      if ContentId(hash, k.bytes) != items[0].digest then Err(MemberDigestMismatch(k.key))
      else
        match Existing(done, k.key)
        case Some(bytes) =>
          if bytes != k.bytes then Err(DuplicateDivergentMember(k.key)) else Collect(items[1..], hash, done)
        case None => Collect(items[1..], hash, done + [k])
  }

  predicate KeyOrder(a: Keyed, b: Keyed) { Lex.AtMost(a.key, b.key) }

  function Spans(cs: seq<Keyed>, at: nat): seq<Member> {
    if cs == [] then [] else [Member(cs[0].key, at, |cs[0].bytes|)] + Spans(cs[1..], at + |cs[0].bytes|)
  }

  function Payload(cs: seq<Keyed>): Bytes {
    if cs == [] then [] else cs[0].bytes + Payload(cs[1..])
  }

  function Finish(cs: seq<Keyed>): Result<Bytes, PackError> {
    if |cs| > MAX_MEMBERS then Err(TooManyMembers(|cs|))
    else if |IndexBytes(Spans(cs, 0))| > MAX_INDEX then Err(IndexTooLarge(|IndexBytes(Spans(cs, 0))|))
    else Ok(Encoding(Spans(cs, 0), Payload(cs)))
  }

  function Build(items: seq<Item>, hash: Hash): Result<Bytes, PackError> {
    if items == [] then Err(EmptyPack)
    else
      match Collect(items, hash, [])
      case Err(e) => Err(e)
      case Ok(cs) => Finish(Sort(cs, KeyOrder))
  }

  // ---------------------------------------------------------------- what collecting accepts

  ghost predicate Genuine(items: seq<Item>, hash: Hash) {
    forall i :: i in items ==> i.digest == ContentId(hash, i.bytes)
  }

  /** One content per key. */
  ghost predicate Functional(ks: set<Keyed>) {
    forall x, y :: x in ks && y in ks && x.key == y.key ==> x == y
  }

  ghost function Contents(items: seq<Item>): set<Keyed> {
    set i | i in items :: KeyedItem(i)
  }

  ghost predicate KeysDistinct(cs: seq<Keyed>) {
    forall i, j :: 0 <= i < j < |cs| ==> cs[i].key != cs[j].key
  }

  lemma ContentsCons(items: seq<Item>)
    requires items != []
    ensures Contents(items) == {KeyedItem(items[0])} + Contents(items[1..])
  {
    assert items == [items[0]] + items[1..];
  }

  lemma GenuineCons(items: seq<Item>, hash: Hash)
    requires items != []
    ensures Genuine(items, hash) <==> items[0].digest == ContentId(hash, items[0].bytes) && Genuine(items[1..], hash)
  {
    assert items == [items[0]] + items[1..];
  }

  lemma DistinctFunctional(cs: seq<Keyed>)
    requires KeysDistinct(cs)
    ensures Functional(Elements(cs))
  {
  }

  /** Collecting succeeds exactly when every digest is genuine and no key names two contents, and
      then keeps each content once. */
  lemma {:induction false} CollectExact(items: seq<Item>, hash: Hash, done: seq<Keyed>)
    requires KeysDistinct(done)
    ensures var r := Collect(items, hash, done);
      && (r.Ok? <==> Genuine(items, hash) && Functional(Elements(done) + Contents(items)))
      && (r.Ok? ==> KeysDistinct(r.value) && Elements(r.value) == Elements(done) + Contents(items))
    decreases |items|
  {
    if items == [] {
      DistinctFunctional(done);
      assert Elements(done) + Contents(items) == Elements(done);
    } else {
      var k := KeyedItem(items[0]);
      ContentsCons(items);
      GenuineCons(items, hash);
      match Existing(done, k.key)
      case Some(bytes) =>
        if bytes == k.bytes {
          CollectExact(items[1..], hash, done);
          assert Elements(done) + Contents(items) == Elements(done) + Contents(items[1..]);
        } else {
          Clash(Elements(done) + Contents(items), Keyed(k.key, bytes), k);
        }
      case None =>
        CollectExact(items[1..], hash, done + [k]);
        ElementsConcat(done, [k]);
        assert Elements(done + [k]) + Contents(items[1..]) == Elements(done) + Contents(items);
    }
  }

  lemma Clash(ks: set<Keyed>, x: Keyed, y: Keyed)
    requires x in ks && y in ks && x.key == y.key && x != y
    ensures !Functional(ks)
  {
  }

  // ---------------------------------------------------------------- order and duplicates do not matter

  lemma DistinctCounts(cs: seq<Keyed>, x: Keyed)
    requires KeysDistinct(cs)
    ensures multiset(cs)[x] == (if x in Elements(cs) then 1 else 0)
  {
    OnceCounts(cs, x);
    assert x in cs <==> x in multiset(cs);
  }

  lemma SameContents(a: seq<Keyed>, b: seq<Keyed>)
    requires KeysDistinct(a) && KeysDistinct(b) && Elements(a) == Elements(b)
    ensures multiset(a) == multiset(b)
  {
    forall x: Keyed ensures multiset(a)[x] == multiset(b)[x] {
      DistinctCounts(a, x);
      DistinctCounts(b, x);
    }
  }

  lemma KeyOrderFacts()
    ensures Preorder(KeyOrder)
  {
    Lex.AtMostOrder();
    forall a, b ensures KeyOrder(a, b) || KeyOrder(b, a) {
      assert Lex.AtMost(a.key, b.key) || Lex.AtMost(b.key, a.key);
    }
    forall a, b, c | KeyOrder(a, b) && KeyOrder(b, c) ensures KeyOrder(a, c) {
      assert Lex.AtMost(a.key, b.key) && Lex.AtMost(b.key, c.key);
    }
  }

  lemma KeysTieEqual(cs: seq<Keyed>)
    requires KeysDistinct(cs)
    ensures AntisymmetricOn(cs, KeyOrder)
  {
    forall x, y | x in cs && y in cs && KeyOrder(x, y) && KeyOrder(y, x) ensures x == y {
      Lex.BelowTrichotomy(x.key, y.key);
    }
  }

  /** The pack is a function of the set of members: neither order nor repetition matters, and
      neither decides whether a pack is built. */
  lemma BuildCanonical(a: seq<Item>, b: seq<Item>, hash: Hash)
    requires Elements(a) == Elements(b)
    ensures Build(a, hash).Ok? <==> Build(b, hash).Ok?
    ensures Build(a, hash).Ok? ==> Build(a, hash) == Build(b, hash)
  {
    CollectExact(a, hash, []);
    CollectExact(b, hash, []);
    assert forall i :: i in a <==> i in Elements(b);
    assert Contents(a) == Contents(b);
    assert a == [] <==> b == [] by {
      if a != [] { assert a[0] in Elements(a); }
      if b != [] { assert b[0] in Elements(b); }
    }
    if Collect(a, hash, []).Ok? && a != [] {
      var ca, cb := Collect(a, hash, []).value, Collect(b, hash, []).value;
      SameContents(ca, cb);
      KeyOrderFacts();
      KeysTieEqual(ca);
      SortCanonical(ca, cb, KeyOrder);
    }
  }

  // ---------------------------------------------------------------- what is built parses back

  /** Keys of genuine members: 21 bytes of domain, a colon and 64 hexadecimal digits. */
  predicate ContentKey(key: Bytes) {
    |key| == 86 && forall i :: 0 <= i < |key| ==> key[i] < 0x80
  }

  lemma GenuineKey(hash: Hash, i: Item)
    requires Wide(hash) && i.digest == ContentId(hash, i.bytes)
    ensures ContentKey(KeyedItem(i).key)
  {
    assert |hash(i.bytes)| == 32;
    assert forall j :: 0 <= j < |Domains.CONTENT| ==> Domains.CONTENT[j] < 0x80;
  }

  lemma GenuineKeys(items: seq<Item>, hash: Hash, k: Keyed)
    requires Wide(hash) && Genuine(items, hash) && k in Contents(items)
    ensures ContentKey(k.key)
  {
    var i :| i in items && KeyedItem(i) == k;
    GenuineKey(hash, i);
  }

  /** Members as the pack holds them: well-formed keys, strictly ascending. */
  ghost predicate Ready(cs: seq<Keyed>) {
    && (forall i :: 0 <= i < |cs| ==> ContentKey(cs[i].key))
    && (forall i, j :: 0 <= i < j < |cs| ==> Lex.Below(cs[i].key, cs[j].key))
  }

  lemma {:induction false} IndexLength(cs: seq<Keyed>, at: nat)
    requires Ready(cs)
    ensures |Spans(cs, at)| == |cs| && |IndexBytes(Spans(cs, at))| == 104 * |cs|
    decreases |cs|
  {
    if cs != [] {
      IndexLength(cs[1..], at + |cs[0].bytes|);
      var m, tail := Member(cs[0].key, at, |cs[0].bytes|), Spans(cs[1..], at + |cs[0].bytes|);
      ConcatCons(EntryBytes, m, tail);
    }
  }

  lemma {:induction false} SpansTotal(cs: seq<Keyed>, at: nat)
    ensures TotalLength(Spans(cs, at)) == |Payload(cs)|
    decreases |cs|
  {
    if cs != [] {
      SpansTotal(cs[1..], at + |cs[0].bytes|);
      assert Spans(cs, at)[1..] == Spans(cs[1..], at + |cs[0].bytes|);
    }
  }

  lemma ReadyTail(cs: seq<Keyed>)
    requires Ready(cs) && cs != []
    ensures Ready(cs[1..])
  {
  }

  lemma {:induction false} SpansLaid(cs: seq<Keyed>, p: Place)
    requires Ready(cs) && p.at + |Payload(cs)| < U64_LIMIT
    requires p.above.Some? && cs != [] ==> Lex.Below(p.above.value, cs[0].key)
    ensures Laid(Spans(cs, p.at), p)
    decreases |cs|
  {
    if cs != [] {
      var m := Member(cs[0].key, p.at, |cs[0].bytes|);
      Utf8.AsciiValid(m.key);
      ReadyTail(cs);
      SpansLaid(cs[1..], NextPlace(m));
      ChainCons(EntryOk, NextPlace, m, Spans(cs[1..], p.at + m.length), p);
    }
  }

  /** Member `i` of the index names member `i` of the list, at the bytes before it. */
  lemma {:induction false} SpanAt(cs: seq<Keyed>, at: nat, i: nat)
    requires i < |cs|
    ensures |Spans(cs, at)| == |cs|
    ensures Spans(cs, at)[i] == Member(cs[i].key, at + |Payload(cs[..i])|, |cs[i].bytes|)
    decreases i
  {
    SpansCount(cs, at);
    if i > 0 {
      SpanAt(cs[1..], at + |cs[0].bytes|, i - 1);
      assert cs[..i][1..] == cs[1..][..i-1];
    }
  }

  lemma {:induction false} SpansCount(cs: seq<Keyed>, at: nat)
    ensures |Spans(cs, at)| == |cs|
    decreases |cs|
  {
    if cs != [] { SpansCount(cs[1..], at + |cs[0].bytes|); }
  }

  lemma {:induction false} PayloadAt(cs: seq<Keyed>, i: nat)
    requires i < |cs|
    ensures Get(Payload(cs), |Payload(cs[..i])|, |cs[i].bytes|) == Some(cs[i].bytes)
  {
    if i > 0 {
      PayloadAt(cs[1..], i - 1);
      assert cs[..i][1..] == cs[1..][..i-1];
      var n, start := |cs[0].bytes|, |Payload(cs[1..][..i-1])|;
      assert Payload(cs)[n..] == Payload(cs[1..]);
      assert Payload(cs)[n+start..n+start+|cs[i].bytes|] == Payload(cs)[n..][start..start+|cs[i].bytes|];
    }
  }

  /** A pack of ready members parses, and every member's span holds its bytes. */
  lemma FinishParses(cs: seq<Keyed>)
    requires Ready(cs) && 1 <= |cs| <= MAX_MEMBERS && |Payload(cs)| < U64_LIMIT
    ensures Finish(cs) == Ok(Encoding(Spans(cs, 0), Payload(cs)))
    ensures Admissible(Spans(cs, 0), Payload(cs))
  {
    IndexLength(cs, 0);
    SpansLaid(cs, FRONT);
    SpansTotal(cs, 0);
  }

  lemma EncodingPayload(ms: seq<Member>, payload: Bytes, start: nat, length: nat)
    requires start + length <= |payload|
    ensures Get(Encoding(ms, payload), 20 + |IndexBytes(ms)| + start, length) == Get(payload, start, length)
  {
    var at, pack := 20 + |IndexBytes(ms)|, Encoding(ms, payload);
    assert pack[at..] == payload;
    assert pack[at+start..at+start+length] == pack[at..][start..start+length];
  }

  /** The index a successful parse of the finished pack returns. */
  function IndexOf(cs: seq<Keyed>): PackIndex {
    PackIndex(Spans(cs, 0), 20 + |IndexBytes(Spans(cs, 0))|, 20 + |IndexBytes(Spans(cs, 0))| + |Payload(cs)|)
  }

  lemma MemberSpan(cs: seq<Keyed>, i: nat)
    requires i < |cs|
    ensures i < |IndexOf(cs).members| && IndexOf(cs).members[i].key == cs[i].key
    ensures Span(IndexOf(cs), Encoding(Spans(cs, 0), Payload(cs)), i) == Some(cs[i].bytes)
  {
    SpanAt(cs, 0, i);
    calc {
      Span(IndexOf(cs), Encoding(Spans(cs, 0), Payload(cs)), i);
      Get(Encoding(Spans(cs, 0), Payload(cs)), 20 + |IndexBytes(Spans(cs, 0))| + |Payload(cs[..i])|, |cs[i].bytes|);
      { PayloadAt(cs, i); EncodingPayload(Spans(cs, 0), Payload(cs), |Payload(cs[..i])|, |cs[i].bytes|); }
      Get(Payload(cs), |Payload(cs[..i])|, |cs[i].bytes|);
      { PayloadAt(cs, i); }
      Some(cs[i].bytes);
    }
  }

  // ---------------------------------------------------------------- the main results

  /** The members a successful build packs: each content once, in key order. */
  lemma SortedReady(items: seq<Item>, hash: Hash)
    requires Wide(hash) && Collect(items, hash, []).Ok?
    ensures var cs := Sort(Collect(items, hash, []).value, KeyOrder);
      Ready(cs) && Elements(cs) == Contents(items)
  {
    CollectExact(items, hash, []);
    var c := Collect(items, hash, []).value;
    var cs := Sort(c, KeyOrder);
    KeyOrderFacts();
    SortSorted(c, KeyOrder);
    SameElements(c, cs);
    assert Elements(cs) == Elements(c) == Contents(items);
    forall i | 0 <= i < |cs| ensures ContentKey(cs[i].key) {
      assert cs[i] in Elements(cs);
      GenuineKeys(items, hash, cs[i]);
    }
    forall i, j | 0 <= i < j < |cs| ensures Lex.Below(cs[i].key, cs[j].key) {
      AscendingPair(c, cs, i, j);
    }
  }

  lemma AscendingPair(c: seq<Keyed>, cs: seq<Keyed>, i: nat, j: nat)
    requires KeysDistinct(c) && multiset(c) == multiset(cs) && SortedBy(cs, KeyOrder)
    requires i < j < |cs|
    ensures Lex.Below(cs[i].key, cs[j].key)
  {
    SameElements(c, cs);
    assert KeyOrder(cs[i], cs[j]);
    assert cs[i] in c && cs[j] in c;
    assert cs[i] != cs[j] by { assert Distinct(c); }
  }

  /** The canonical member list: each content once, in key order. */
  ghost predicate Lists(cs: seq<Keyed>, items: seq<Item>) {
    Ready(cs) && Elements(cs) == Contents(items)
  }

  /** Exactly when a pack is built: members present, digests genuine, one content per digest, and
      at most the allowed number of distinct members. */
  lemma BuildOkIff(items: seq<Item>, hash: Hash)
    requires Wide(hash)
    ensures Build(items, hash).Ok? <==>
      items != [] && Genuine(items, hash) && Functional(Contents(items)) && |Contents(items)| <= MAX_MEMBERS
  {
    CollectExact(items, hash, []);
    assert Elements<Keyed>([]) + Contents(items) == Contents(items);
    if Collect(items, hash, []).Ok? {
      SortedReady(items, hash);
      var cs := Sort(Collect(items, hash, []).value, KeyOrder);
      ReadyCount(cs);
      IndexLength(cs, 0);
    }
  }

  lemma ReadyDistinct(cs: seq<Keyed>)
    requires Ready(cs)
    ensures Distinct(cs)
  {
    forall i, j | 0 <= i < j < |cs| ensures cs[i] != cs[j] {
      Lex.BelowIrreflexive(cs[i].key);
    }
  }

  lemma {:induction false} DistinctCount<T>(s: seq<T>)
    requires Distinct(s)
    ensures |Elements(s)| == |s|
  {
    if s != [] {
      DistinctCount(s[1..]);
      assert s == [s[0]] + s[1..];
      assert Elements(s) == {s[0]} + Elements(s[1..]);
    }
  }

  lemma ReadyCount(cs: seq<Keyed>)
    requires Ready(cs)
    ensures |Elements(cs)| == |cs|
  {
    ReadyDistinct(cs);
    DistinctCount(cs);
  }

  /** A pack that was built parses, to an index that was never too large for the format. */
  lemma BuildParses(items: seq<Item>, hash: Hash, pack: Bytes) returns (cs: seq<Keyed>)
    requires Wide(hash) && Build(items, hash) == Ok(pack) && |pack| < U64_LIMIT
    ensures Lists(cs, items) && pack == Encoding(Spans(cs, 0), Payload(cs))
    ensures Parse(pack) == Ok(IndexOf(cs)) && Validated(IndexOf(cs))
  {
    cs := Sort(Collect(items, hash, []).value, KeyOrder);
    SortedReady(items, hash);
    assert KeyedItem(items[0]) in Elements(cs);
    FinishParses(cs);
    ParseComplete(Spans(cs, 0), Payload(cs));
  }

  /** Every member offered to a build is read back, byte for byte, through the parsed index. */
  lemma BuildRoundTrip(items: seq<Item>, hash: Hash, pack: Bytes, item: Item)
    requires Wide(hash) && Build(items, hash) == Ok(pack) && |pack| < U64_LIMIT && item in items
    ensures Parse(pack).Ok? && Validated(Parse(pack).value)
    ensures var ix := Parse(pack).value;
      exists i :: 0 <= i < |ix.members|
        && ix.members[i].key == DigestKey(item.digest) && Span(ix, pack, i) == Some(item.bytes)
  {
    var cs := BuildParses(items, hash, pack);
    assert KeyedItem(item) in Elements(cs);
    var i :| 0 <= i < |cs| && cs[i] == KeyedItem(item);
    MemberSpan(cs, i);
  }

  /** And nothing else is: every member of the built pack was offered. */
  lemma BuildOnlyOffered(items: seq<Item>, hash: Hash, pack: Bytes, i: nat)
    requires Wide(hash) && Build(items, hash) == Ok(pack) && |pack| < U64_LIMIT
    requires Parse(pack).Ok? && i < |Parse(pack).value.members|
    ensures exists item ::
      && item in items && DigestKey(item.digest) == Parse(pack).value.members[i].key
      && Span(Parse(pack).value, pack, i) == Some(item.bytes)
  {
    var cs := BuildParses(items, hash, pack);
    SpansCount(cs, 0);
    MemberSpan(cs, i);
    assert cs[i] in Contents(items);
    var item :| item in items && KeyedItem(item) == cs[i];
  }

  // ---------------------------------------------------------------- the loops

  method FindExisting(cs: seq<Keyed>, key: Bytes) returns (r: Option<Bytes>)
    ensures r == Existing(cs, key)
  {
    assert cs == cs[0..];
    for i := 0 to |cs|
      invariant Existing(cs, key) == Existing(cs[i..], key)
    {
      if cs[i].key == key { return Some(cs[i].bytes); }
      assert cs[i..][1..] == cs[i+1..];
    }
    return None;
  }

  method CollectMembers(items: seq<Item>, hash: Hash) returns (r: Result<seq<Keyed>, PackError>)
    ensures r == Collect(items, hash, [])
  {
    var done: seq<Keyed> := [];
    assert items == items[0..];
    for i := 0 to |items|
      invariant Collect(items, hash, []) == Collect(items[i..], hash, done)
    {
      assert items[i..][1..] == items[i+1..];
      var key := DigestKey(items[i].digest);
      if ContentId(hash, items[i].bytes) != items[i].digest { return Err(MemberDigestMismatch(key)); }
      var existing := FindExisting(done, key);
      match existing {
        case Some(bytes) => if bytes != items[i].bytes { return Err(DuplicateDivergentMember(key)); }
        case None => done := done + [Keyed(key, items[i].bytes)];
      }
    }
    return Ok(done);
  }

  lemma SpansCons(c: Keyed, cs: seq<Keyed>, at: nat)
    ensures Spans([c] + cs, at) == [Member(c.key, at, |c.bytes|)] + Spans(cs, at + |c.bytes|)
    ensures |Payload([c] + cs)| == |c.bytes| + |Payload(cs)|
  {
    assert ([c] + cs)[1..] == cs;
  }

  lemma {:induction false} SpansAppend(cs: seq<Keyed>, at: nat, c: Keyed)
    ensures Spans(cs + [c], at) == Spans(cs, at) + [Member(c.key, at + |Payload(cs)|, |c.bytes|)]
    decreases |cs|
  {
    if cs == [] {
      assert cs + [c] == [c];
      assert Spans([c][1..], at + |c.bytes|) == [];
    } else {
      SpansAppend(cs[1..], at + |cs[0].bytes|, c);
      SpansCons(cs[0], cs[1..], at);
      SpansCons(cs[0], cs[1..] + [c], at);
      assert cs == [cs[0]] + cs[1..] && cs + [c] == [cs[0]] + (cs[1..] + [c]);
    }
  }

  lemma {:induction false} PayloadAppend(cs: seq<Keyed>, c: Keyed)
    ensures Payload(cs + [c]) == Payload(cs) + c.bytes
  {
    if cs == [] {
      assert cs + [c] == [c];
    } else {
      assert (cs + [c])[1..] == cs[1..] + [c];
      PayloadAppend(cs[1..], c);
    }
  }

  lemma {:induction false} IndexAppend(ms: seq<Member>, m: Member)
    ensures IndexBytes(ms + [m]) == IndexBytes(ms) + EntryBytes(m)
  {
    if ms == [] {
      assert ms + [m] == [m];
    } else {
      assert (ms + [m])[1..] == ms[1..] + [m];
      IndexAppend(ms[1..], m);
    }
  }

  /** The index and payload loops, with offsets derived as they go. */
  method WriteMembers(cs: seq<Keyed>) returns (index: Bytes, payload: Bytes)
    ensures index == IndexBytes(Spans(cs, 0)) && payload == Payload(cs)
  {
    index, payload := [], [];
    var offset: nat := 0;
    for i := 0 to |cs|
      invariant index == IndexBytes(Spans(cs[..i], 0)) && payload == Payload(cs[..i]) && offset == |payload|
    {
      var m := Member(cs[i].key, offset, |cs[i].bytes|);
      assert cs[..i+1] == cs[..i] + [cs[i]];
      SpansAppend(cs[..i], 0, cs[i]);
      IndexAppend(Spans(cs[..i], 0), m);
      PayloadAppend(cs[..i], cs[i]);
      index, payload, offset := index + EntryBytes(m), payload + cs[i].bytes, offset + |cs[i].bytes|;
    }
    assert cs[..|cs|] == cs;
  }

  /** `build_pack`. */
  method BuildPack(items: seq<Item>, hash: Hash) returns (r: Result<Bytes, PackError>)
    ensures r == Build(items, hash)
  {
    if items == [] { return Err(EmptyPack); }
    var collected := CollectMembers(items, hash);
    if collected.Err? { return Err(collected.error); }
    var cs := Sort(collected.value, KeyOrder);
    if |cs| > MAX_MEMBERS { return Err(TooManyMembers(|cs|)); }
    var index, payload := WriteMembers(cs);
    if |index| > MAX_INDEX { return Err(IndexTooLarge(|index|)); }
    SpansCount(cs, 0);
    return Ok(Header(|cs|, |index|) + index + payload);
  }

  // ---------------------------------------------------------------- what building refuses

  ghost predicate Forged(items: seq<Item>, hash: Hash, key: Bytes) {
    exists x :: x in items && DigestKey(x.digest) == key
      && x.digest != TypedDigest(Ascii("rabs.object.sha256.v1"), hash(x.bytes))
  }

  ghost predicate Divergent(ks: set<Keyed>, key: Bytes) {
    exists x, y :: x in ks && y in ks && x.key == key == y.key && x.bytes != y.bytes
  }

  lemma {:induction false} CollectRefusals(items: seq<Item>, hash: Hash, done: seq<Keyed>)
    requires Collect(items, hash, done).Err?
    ensures match Collect(items, hash, done).error
      case MemberDigestMismatch(key) => Forged(items, hash, key)
      case DuplicateDivergentMember(key) => Divergent(Elements(done) + Contents(items), key)
      case _ => false
    decreases |items|
  {
    var k := KeyedItem(items[0]);
    ContentsCons(items);
    assert items[0] in items && k in Contents(items);
    assert forall x :: x in items[1..] ==> x in items;
    if ContentId(hash, k.bytes) == items[0].digest {
      var found := Existing(done, k.key);
      if found.Some? {
        assert Keyed(k.key, found.value) in Elements(done);
        if found.value == k.bytes { CollectRefusals(items[1..], hash, done); }
      } else {
        CollectRefusals(items[1..], hash, done + [k]);
        assert Elements(done + [k]) == Elements(done) + {k};
      }
    }
  }

  /** Every refusal is deserved: an empty pack has no members; a mismatch names a member whose digest
      is not its content's; a divergence names a digest under two contents; too many means that many
      distinct members, and more than 4096. */
  lemma BuildRefusals(items: seq<Item>, hash: Hash)
    requires Wide(hash) && Build(items, hash).Err?
    ensures match Build(items, hash).error
      case EmptyPack => items == []
      case MemberDigestMismatch(key) => Forged(items, hash, key)
      case DuplicateDivergentMember(key) => Divergent(Contents(items), key)
      case TooManyMembers(n) => n == |Contents(items)| > 4096
      case _ => false
  {
    if items != [] {
      CollectExact(items, hash, []);
      assert Elements<Keyed>([]) + Contents(items) == Contents(items);
      if Collect(items, hash, []).Ok? {
        SortedReady(items, hash);
        var cs := Sort(Collect(items, hash, []).value, KeyOrder);
        ReadyCount(cs);
        IndexLength(cs, 0);
      } else {
        CollectRefusals(items, hash, []);
      }
    }
  }
}
