/** The canonical byte encoding of action-result manifests: the format, and what its decoder accepts. */
module ManifestCodec {
  import opened Prelude
  import opened Digests
  import opened Parsing
  import BE = BigEndian
  import Domains

  /** "RMF1". */
  const MAGIC: Bytes := [82, 77, 70, 49]
  const VERSION: byte := 1
  const ALGO_SHA256_V1: byte := 1

  datatype Field =
    | Magic | Version | ActionKey | Descriptor | KeyEpoch | ProjectionEpoch | ResultKindTag | BundleRootPresent
    | BundleRoot | OutputCount | RoleTag | PathLength | Path | OutputObject | Semantic | Observable

  datatype Role = Materializable | DepInfo | ProvisionalMetadata | BuildScriptMetadata | TestSideEffect

  datatype Output = Output(role: Role, path: Bytes, content: TypedDigest)

  datatype Manifest = Manifest(
    actionKey: TypedDigest, descriptor: TypedDigest, keyEpoch: nat, projectionEpoch: nat,
    kind: ResultKind, bundleRoot: Option<TypedDigest>, outputs: seq<Output>,
    semantic: TypedDigest, observable: TypedDigest)

  datatype CodecError =
    | BadMagic
    | UnsupportedVersion(version: byte)
    | TruncatedAt(field: Field)
    | TrailingBytes(count: nat)
    | UnexpectedDomain(field: Field, expected: Bytes, found: Bytes)
    | UnknownAlgorithm(tag: byte)
    | UnknownResultKind(tag: byte)
    | UnknownOutputRole(tag: byte)

  type Read<T> = Result<Parsed<T>, CodecError>

  // ---------------------------------------------------------------- the fields, decoded

  function ReadBytes(b: Bytes, n: nat, field: Field): Read<Bytes> {
    if |b| < n then Err(TruncatedAt(field)) else Ok(Parsed(b[..n], b[n..]))
  }

  function ReadUint(b: Bytes, w: nat, field: Field): Read<nat> {
    match ReadBytes(b, w, field)
    case Err(e) => Err(e)
    case Ok(Parsed(x, rest)) => Ok(Parsed(BE.Decode(x), rest))
  }

  function ReadTag(b: Bytes, field: Field): Read<byte> {
    match ReadBytes(b, 1, field)
    case Err(e) => Err(e)
    case Ok(Parsed(x, rest)) => Ok(Parsed(x[0], rest))
  }

  /** The 32 bytes of a digest, behind its domain. */
  function ReadDomain(b: Bytes, field: Field, domain: Bytes): Read<TypedDigest> {
    match ReadUint(b, 2, field)
    case Err(e) => Err(e)
    case Ok(Parsed(n, rest)) =>
      match ReadBytes(rest, n, field)
      case Err(e) => Err(e)
      case Ok(Parsed(found, rest)) =>
        if found != domain then Err(UnexpectedDomain(field, domain, found))
        else
          match ReadBytes(rest, 32, field)
          case Err(e) => Err(e)
          case Ok(Parsed(bytes, rest)) => Ok(Parsed(TypedDigest(domain, bytes), rest))
  }

  function ReadDigest(b: Bytes, field: Field, domain: Bytes): Read<TypedDigest> {
    match ReadTag(b, field)
    case Err(e) => Err(e)
    case Ok(Parsed(algo, rest)) =>
      if algo != ALGO_SHA256_V1 then Err(UnknownAlgorithm(algo)) else ReadDomain(rest, field, domain)
  }

  function KindTag(k: ResultKind): byte {
    match k case Success => 0 case DeterministicFailure => 1
  }

  function KindFromTag(t: byte): Option<ResultKind> {
    if t == 0 then Some(Success) else if t == 1 then Some(DeterministicFailure) else None
  }

  function RoleTagOf(r: Role): byte {
    match r
    case Materializable => 0
    case DepInfo => 1
    case ProvisionalMetadata => 2
    case BuildScriptMetadata => 3
    case TestSideEffect => 4
  }

  function RoleFromTag(t: byte): Option<Role> {
    if t == 0 then Some(Materializable)
    else if t == 1 then Some(DepInfo)
    else if t == 2 then Some(ProvisionalMetadata)
    else if t == 3 then Some(BuildScriptMetadata)
    else if t == 4 then Some(TestSideEffect)
    else None
  }

  function ReadKind(b: Bytes): Read<ResultKind> {
    match ReadTag(b, ResultKindTag)
    case Err(e) => Err(e)
    case Ok(Parsed(tag, rest)) =>
      match KindFromTag(tag)
      case None => Err(UnknownResultKind(tag))
      case Some(k) => Ok(Parsed(k, rest))
  }

  /** An absent bundle root is flag 0; any flag above 1 is refused as an unknown result kind. */
  function ReadRoot(b: Bytes): Read<Option<TypedDigest>> {
    match ReadTag(b, BundleRootPresent)
    case Err(e) => Err(e)
    case Ok(Parsed(flag, rest)) =>
      if flag == 0 then Ok(Parsed(None, rest))
      else if flag == 1 then
        match ReadDigest(rest, BundleRoot, Domains.BUNDLE_ROOT)
        case Err(e) => Err(e)
        case Ok(Parsed(d, rest)) => Ok(Parsed(Some(d), rest))
      else Err(UnknownResultKind(flag))
  }

  function ReadPath(b: Bytes): Read<Bytes> {
    match ReadUint(b, 4, PathLength)
    case Err(e) => Err(e)
    case Ok(Parsed(n, rest)) => ReadBytes(rest, n, Path)
  }

  function ReadRole(b: Bytes): Read<Role> {
    match ReadTag(b, RoleTag)
    case Err(e) => Err(e)
    case Ok(Parsed(tag, rest)) =>
      match RoleFromTag(tag)
      case None => Err(UnknownOutputRole(tag))
      case Some(r) => Ok(Parsed(r, rest))
  }

  // ---------------------------------------------------------------- the fields, encoded

  function Saturate(n: nat, limit: nat): nat
    requires limit > 0
  {
    if n < limit then n else limit - 1
  }

  /** A length field of `w` bytes, saturated. */
  function PutLength(n: nat, w: nat): Bytes {
    BE.Encode(Saturate(n, BE.Pow256(w)), w)
  }

  function PutDigest(d: TypedDigest): Bytes {
    [ALGO_SHA256_V1] + (PutLength(|d.domain|, 2) + d.domain + d.bytes)
  }

  function PutPath(path: Bytes): Bytes {
    PutLength(|path|, 4) + path
  }

  function PutRoot(root: Option<TypedDigest>): Bytes {
    match root case None => [0] case Some(d) => [1] + PutDigest(d)
  }

  predicate InDomain(d: TypedDigest, domain: Bytes) {
    d.domain == domain && |d.bytes| == 32
  }

  predicate RootInDomain(root: Option<TypedDigest>) {
    root.Some? ==> InDomain(root.value, Domains.BUNDLE_ROOT)
  }

  // ---------------------------------------------------------------- each field is exact

  lemma TakeParts(a: Bytes, rest: Bytes)
    ensures (a + rest)[..|a|] == a && (a + rest)[|a|..] == rest
  {
  }

  lemma BytesExact(b: Bytes, n: nat, field: Field)
    ensures var r := ReadBytes(b, n, field);
      (r.Ok? <==> |b| >= n) && (r.Ok? ==> b == r.value.value + r.value.rest && |r.value.value| == n)
  {
  }

  lemma UintSound(b: Bytes, w: nat, field: Field, v: nat, rest: Bytes)
    requires ReadUint(b, w, field) == Ok(Parsed(v, rest))
    ensures b == BE.Encode(v, w) + rest && v < BE.Pow256(w)
  {
    BE.EncodeDecode(b[..w]);
    BE.DecodeBound(b[..w]);
    assert b == b[..w] + b[w..];
  }

  lemma UintComplete(v: nat, w: nat, field: Field, rest: Bytes)
    requires v < BE.Pow256(w)
    ensures ReadUint(BE.Encode(v, w) + rest, w, field) == Ok(Parsed(v, rest))
  {
    TakeParts(BE.Encode(v, w), rest);
    BE.DecodeEncode(v, w);
  }

  lemma TagSound(b: Bytes, field: Field, tag: byte, rest: Bytes)
    requires ReadTag(b, field) == Ok(Parsed(tag, rest))
    ensures b == [tag] + rest
  {
  }

  lemma TagComplete(tag: byte, field: Field, rest: Bytes)
    ensures ReadTag([tag] + rest, field) == Ok(Parsed(tag, rest))
  {
    TakeParts([tag], rest);
  }

  lemma DomainSound(b: Bytes, field: Field, domain: Bytes, d: TypedDigest, rest: Bytes)
    requires ReadDomain(b, field, domain) == Ok(Parsed(d, rest))
    ensures b == PutLength(|domain|, 2) + domain + d.bytes + rest && InDomain(d, domain)
  {
    var Parsed(n, b1) := ReadUint(b, 2, field).value;
    UintSound(b, 2, field, n, b1);
    BytesExact(b1, n, field);
    var Parsed(found, b2) := ReadBytes(b1, n, field).value;
    BytesExact(b2, 32, field);
    assert found == domain && b1 == domain + b2 && b2 == d.bytes + rest;
    Rebracket(BE.Encode(n, 2), domain, b2);
    Rebracket(BE.Encode(n, 2) + domain, d.bytes, rest);
  }

  lemma DomainComplete(field: Field, d: TypedDigest, rest: Bytes)
    requires |d.domain| < U16_LIMIT && |d.bytes| == 32
    ensures ReadDomain(PutLength(|d.domain|, 2) + d.domain + d.bytes + rest, field, d.domain) == Ok(Parsed(d, rest))
  {
    BE.Widths();
    Rebracket(PutLength(|d.domain|, 2), d.domain, d.bytes + rest);
    Rebracket(PutLength(|d.domain|, 2) + d.domain, d.bytes, rest);
    UintComplete(|d.domain|, 2, field, d.domain + (d.bytes + rest));
    TakeParts(d.domain, d.bytes + rest);
    TakeParts(d.bytes, rest);
  }

  lemma DigestSound(b: Bytes, field: Field, domain: Bytes, d: TypedDigest, rest: Bytes)
    requires ReadDigest(b, field, domain) == Ok(Parsed(d, rest))
    ensures b == PutDigest(d) + rest && InDomain(d, domain)
  {
    var Parsed(algo, b1) := ReadTag(b, field).value;
    TagSound(b, field, algo, b1);
    DomainSound(b1, field, domain, d, rest);
    Rebracket([algo], PutLength(|domain|, 2) + domain + d.bytes, rest);
  }

  lemma DigestComplete(field: Field, domain: Bytes, d: TypedDigest, rest: Bytes)
    requires InDomain(d, domain) && |domain| < U16_LIMIT
    ensures ReadDigest(PutDigest(d) + rest, field, domain) == Ok(Parsed(d, rest))
  {
    var body := PutLength(|domain|, 2) + domain + d.bytes;
    Rebracket([ALGO_SHA256_V1], body, rest);
    TagComplete(ALGO_SHA256_V1, field, body + rest);
    DomainComplete(field, d, rest);
  }

  function DigestOk(domain: Bytes): TypedDigest -> bool {
    (d: TypedDigest) => InDomain(d, domain)
  }

  function DigestParser(field: Field, domain: Bytes): Parser<TypedDigest, CodecError> {
    (b: Bytes) => ReadDigest(b, field, domain)
  }

  lemma DigestExact(field: Field, domain: Bytes)
    requires |domain| < U16_LIMIT
    ensures Exact(DigestParser(field, domain), PutDigest, DigestOk(domain))
  {
    forall b | ReadDigest(b, field, domain).Ok?
      ensures var r := ReadDigest(b, field, domain).value; b == PutDigest(r.value) + r.rest && InDomain(r.value, domain)
    {
      DigestSound(b, field, domain, ReadDigest(b, field, domain).value.value, ReadDigest(b, field, domain).value.rest);
    }
    forall d, rest | InDomain(d, domain) ensures ReadDigest(PutDigest(d) + rest, field, domain) == Ok(Parsed(d, rest)) {
      DigestComplete(field, domain, d, rest);
    }
  }

  function PutU32(n: nat): Bytes {
    PutLength(n, 4)
  }

  predicate FitsU32(n: nat) {
    n < U32_LIMIT
  }

  function U32Parser(field: Field): Parser<nat, CodecError> {
    (b: Bytes) => ReadUint(b, 4, field)
  }

  lemma U32Exact(field: Field)
    ensures Exact(U32Parser(field), PutU32, FitsU32)
  {
    BE.Widths();
    forall b | ReadUint(b, 4, field).Ok?
      ensures var r := ReadUint(b, 4, field).value; b == PutU32(r.value) + r.rest && FitsU32(r.value)
    {
      UintSound(b, 4, field, ReadUint(b, 4, field).value.value, ReadUint(b, 4, field).value.rest);
    }
    forall n: nat, rest | FitsU32(n) ensures ReadUint(PutU32(n) + rest, 4, field) == Ok(Parsed(n, rest)) {
      UintComplete(n, 4, field, rest);
    }
  }

  function PutKind(k: ResultKind): Bytes {
    [KindTag(k)]
  }

  lemma KindExact()
    ensures Exact(ReadKind, PutKind, (_: ResultKind) => true)
  {
    forall b | ReadKind(b).Ok? ensures b == PutKind(ReadKind(b).value.value) + ReadKind(b).value.rest {
      TagSound(b, ResultKindTag, ReadTag(b, ResultKindTag).value.value, ReadTag(b, ResultKindTag).value.rest);
    }
    forall k, rest ensures ReadKind(PutKind(k) + rest) == Ok(Parsed(k, rest)) {
      TagComplete(KindTag(k), ResultKindTag, rest);
    }
  }

  function PutRole(r: Role): Bytes {
    [RoleTagOf(r)]
  }

  lemma RoleExact()
    ensures Exact(ReadRole, PutRole, (_: Role) => true)
  {
    forall b | ReadRole(b).Ok? ensures b == PutRole(ReadRole(b).value.value) + ReadRole(b).value.rest {
      TagSound(b, RoleTag, ReadTag(b, RoleTag).value.value, ReadTag(b, RoleTag).value.rest);
    }
    forall r, rest ensures ReadRole(PutRole(r) + rest) == Ok(Parsed(r, rest)) {
      TagComplete(RoleTagOf(r), RoleTag, rest);
    }
  }

  predicate PathFits(path: Bytes) {
    |path| < U32_LIMIT
  }

  lemma PathSound(b: Bytes, path: Bytes, rest: Bytes)
    requires ReadPath(b) == Ok(Parsed(path, rest))
    ensures b == PutPath(path) + rest && PathFits(path)
  {
    var Parsed(n, b1) := ReadUint(b, 4, PathLength).value;
    BE.Widths();
    UintSound(b, 4, PathLength, n, b1);
    BytesExact(b1, n, Path);
    Rebracket(BE.Encode(n, 4), path, rest);
  }

  lemma PathComplete(path: Bytes, rest: Bytes)
    requires PathFits(path)
    ensures ReadPath(PutPath(path) + rest) == Ok(Parsed(path, rest))
  {
    BE.Widths();
    Rebracket(PutLength(|path|, 4), path, rest);
    UintComplete(|path|, 4, PathLength, path + rest);
    TakeParts(path, rest);
  }

  lemma PathExact()
    ensures Exact(ReadPath, PutPath, PathFits)
  {
    forall b | ReadPath(b).Ok?
      ensures b == PutPath(ReadPath(b).value.value) + ReadPath(b).value.rest && PathFits(ReadPath(b).value.value)
    {
      PathSound(b, ReadPath(b).value.value, ReadPath(b).value.rest);
    }
    forall path, rest | PathFits(path) ensures ReadPath(PutPath(path) + rest) == Ok(Parsed(path, rest)) {
      PathComplete(path, rest);
    }
  }

  lemma RootSound(b: Bytes, root: Option<TypedDigest>, rest: Bytes)
    requires ReadRoot(b) == Ok(Parsed(root, rest))
    ensures b == PutRoot(root) + rest && RootInDomain(root)
  {
    var Parsed(flag, b1) := ReadTag(b, BundleRootPresent).value;
    TagSound(b, BundleRootPresent, flag, b1);
    if flag == 1 {
      DigestSound(b1, BundleRoot, Domains.BUNDLE_ROOT, root.value, rest);
      Rebracket([1], PutDigest(root.value), rest);
    }
  }

  lemma RootComplete(root: Option<TypedDigest>, rest: Bytes)
    requires RootInDomain(root)
    ensures ReadRoot(PutRoot(root) + rest) == Ok(Parsed(root, rest))
  {
    match root
    case None => TagComplete(0, BundleRootPresent, rest);
    case Some(d) =>
      Rebracket([1], PutDigest(d), rest);
      TagComplete(1, BundleRootPresent, PutDigest(d) + rest);
      DigestComplete(BundleRoot, Domains.BUNDLE_ROOT, d, rest);
  }

  lemma RootExact()
    ensures Exact(ReadRoot, PutRoot, RootInDomain)
  {
    forall b | ReadRoot(b).Ok?
      ensures b == PutRoot(ReadRoot(b).value.value) + ReadRoot(b).value.rest && RootInDomain(ReadRoot(b).value.value)
    {
      RootSound(b, ReadRoot(b).value.value, ReadRoot(b).value.rest);
    }
    forall root, rest | RootInDomain(root) ensures ReadRoot(PutRoot(root) + rest) == Ok(Parsed(root, rest)) {
      RootComplete(root, rest);
    }
  }

  // ---------------------------------------------------------------- outputs

  type OutputFields = (Role, (Bytes, TypedDigest))

  function ToOutput(f: OutputFields): Output { Output(f.0, f.1.0, f.1.1) }
  function FromOutput(o: Output): OutputFields { (o.role, (o.path, o.content)) }

  function OutputParser(): Parser<Output, CodecError> {
    MapParser(Pair(ReadRole, Pair(ReadPath, DigestParser(OutputObject, Domains.CONTENT))), ToOutput)
  }

  function PutOutput(o: Output): Bytes {
    PutRole(o.role) + (PutPath(o.path) + PutDigest(o.content))
  }

  predicate OutputOk(o: Output) {
    PathFits(o.path) && InDomain(o.content, Domains.CONTENT)
  }

  lemma OutputExact()
    ensures Exact(OutputParser(), PutOutput, OutputOk)
  {
    var dp, dok := DigestParser(OutputObject, Domains.CONTENT), DigestOk(Domains.CONTENT);
    var rok := (_: Role) => true;
    DigestExact(OutputObject, Domains.CONTENT);
    PathExact();
    RoleExact();
    PairExact(ReadPath, PutPath, PathFits, dp, PutDigest, dok);
    var pp, pe, pok := Pair(ReadPath, dp), EncodePair(PutPath, PutDigest), Both(PathFits, dok);
    PairExact(ReadRole, PutRole, rok, pp, pe, pok);
    MapExact(Pair(ReadRole, pp), EncodePair(PutRole, pe), Both(rok, pok), ToOutput, FromOutput, PutOutput, OutputOk);
  }

  function OutputsParser(): Parser<seq<Output>, CodecError> {
    Counted(U32Parser(OutputCount), OutputParser())
  }

  function PutOutputs(os: seq<Output>): Bytes {
    PutU32(|os|) + Concat(PutOutput, os)
  }

  predicate OutputsOk(os: seq<Output>) {
    FitsU32(|os|) && AllOk(OutputOk, os)
  }

  lemma OutputsExact()
    ensures Exact(OutputsParser(), PutOutputs, OutputsOk)
  {
    U32Exact(OutputCount);
    OutputExact();
    CountedExact(U32Parser(OutputCount), PutU32, FitsU32, OutputParser(), PutOutput, OutputOk);
    SameExact(OutputsParser(), EncodeCounted(PutU32, PutOutput), CountedOk(FitsU32, OutputOk), PutOutputs, OutputsOk);
  }

  lemma SameExact<T(!new), E>(p: Parser<T, E>, e: T -> Bytes, ok: T -> bool, e': T -> Bytes, ok': T -> bool)
    requires Exact(p, e, ok) && forall t :: e(t) == e'(t) && ok(t) == ok'(t)
    ensures Exact(p, e', ok')
  {
  }

  // ---------------------------------------------------------------- the manifest

  type Tail = (Option<TypedDigest>, (seq<Output>, (TypedDigest, TypedDigest)))
  type Middle = (nat, (nat, (ResultKind, Tail)))
  type Fields = (TypedDigest, (TypedDigest, Middle))

  function TailParser(): Parser<Tail, CodecError> {
    Pair(ReadRoot, Pair(OutputsParser(),
      Pair(DigestParser(Semantic, Domains.SEMANTIC), DigestParser(Observable, Domains.OBSERVABLE))))
  }

  function MiddleParser(): Parser<Middle, CodecError> {
    Pair(U32Parser(KeyEpoch), Pair(U32Parser(ProjectionEpoch), Pair(ReadKind, TailParser())))
  }

  function FieldsParser(): Parser<Fields, CodecError> {
    Pair(DigestParser(ActionKey, Domains.ACTION_KEY),
      Pair(DigestParser(Descriptor, Domains.DESCRIPTOR), MiddleParser()))
  }

  function PutTail(t: Tail): Bytes {
    PutRoot(t.0) + (PutOutputs(t.1.0) + (PutDigest(t.1.1.0) + PutDigest(t.1.1.1)))
  }

  function PutMiddle(m: Middle): Bytes {
    PutU32(m.0) + (PutU32(m.1.0) + (PutKind(m.1.1.0) + PutTail(m.1.1.1)))
  }

  function PutFields(f: Fields): Bytes {
    PutDigest(f.0) + (PutDigest(f.1.0) + PutMiddle(f.1.1))
  }

  predicate TailOk(t: Tail) {
    && RootInDomain(t.0) && OutputsOk(t.1.0)
    && InDomain(t.1.1.0, Domains.SEMANTIC) && InDomain(t.1.1.1, Domains.OBSERVABLE)
  }

  predicate MiddleOk(m: Middle) {
    FitsU32(m.0) && FitsU32(m.1.0) && TailOk(m.1.1.1)
  }

  predicate FieldsOk(f: Fields) {
    InDomain(f.0, Domains.ACTION_KEY) && InDomain(f.1.0, Domains.DESCRIPTOR) && MiddleOk(f.1.1)
  }

  lemma TailExact()
    ensures Exact(TailParser(), PutTail, TailOk)
  {
    var sp, op := DigestParser(Semantic, Domains.SEMANTIC), DigestParser(Observable, Domains.OBSERVABLE);
    var sok, ook := DigestOk(Domains.SEMANTIC), DigestOk(Domains.OBSERVABLE);
    DigestExact(Semantic, Domains.SEMANTIC);
    DigestExact(Observable, Domains.OBSERVABLE);
    OutputsExact();
    RootExact();
    PairExact(sp, PutDigest, sok, op, PutDigest, ook);
    var p1, e1, ok1 := Pair(sp, op), EncodePair(PutDigest, PutDigest), Both(sok, ook);
    PairExact(OutputsParser(), PutOutputs, OutputsOk, p1, e1, ok1);
    var p2, e2, ok2 := Pair(OutputsParser(), p1), EncodePair(PutOutputs, e1), Both(OutputsOk, ok1);
    PairExact(ReadRoot, PutRoot, RootInDomain, p2, e2, ok2);
    SameExact(TailParser(), EncodePair(PutRoot, e2), Both(RootInDomain, ok2), PutTail, TailOk);
  }

  lemma MiddleExact()
    ensures Exact(MiddleParser(), PutMiddle, MiddleOk)
  {
    var kok := (_: ResultKind) => true;
    TailExact();
    KindExact();
    U32Exact(KeyEpoch);
    U32Exact(ProjectionEpoch);
    PairExact(ReadKind, PutKind, kok, TailParser(), PutTail, TailOk);
    var p1, e1, ok1 := Pair(ReadKind, TailParser()), EncodePair(PutKind, PutTail), Both(kok, TailOk);
    PairExact(U32Parser(ProjectionEpoch), PutU32, FitsU32, p1, e1, ok1);
    var p2, e2, ok2 := Pair(U32Parser(ProjectionEpoch), p1), EncodePair(PutU32, e1), Both(FitsU32, ok1);
    PairExact(U32Parser(KeyEpoch), PutU32, FitsU32, p2, e2, ok2);
    SameExact(MiddleParser(), EncodePair(PutU32, e2), Both(FitsU32, ok2), PutMiddle, MiddleOk);
  }

  lemma FieldsExact()
    ensures Exact(FieldsParser(), PutFields, FieldsOk)
  {
    var ap, dp := DigestParser(ActionKey, Domains.ACTION_KEY), DigestParser(Descriptor, Domains.DESCRIPTOR);
    var aok, dok := DigestOk(Domains.ACTION_KEY), DigestOk(Domains.DESCRIPTOR);
    MiddleExact();
    DigestExact(ActionKey, Domains.ACTION_KEY);
    DigestExact(Descriptor, Domains.DESCRIPTOR);
    PairExact(dp, PutDigest, dok, MiddleParser(), PutMiddle, MiddleOk);
    var p1, e1, ok1 := Pair(dp, MiddleParser()), EncodePair(PutDigest, PutMiddle), Both(dok, MiddleOk);
    PairExact(ap, PutDigest, aok, p1, e1, ok1);
    SameExact(FieldsParser(), EncodePair(PutDigest, e1), Both(aok, ok1), PutFields, FieldsOk);
  }

  function ToManifest(f: Fields): Manifest {
    var m := f.1.1;
    var t := m.1.1.1;
    Manifest(f.0, f.1.0, m.0, m.1.0, m.1.1.0, t.0, t.1.0, t.1.1.0, t.1.1.1)
  }

  function FieldsOf(m: Manifest): Fields {
    (m.actionKey, (m.descriptor, (m.keyEpoch, (m.projectionEpoch, (m.kind,
      (m.bundleRoot, (m.outputs, (m.semantic, m.observable))))))))
  }

  /** Every field in its own domain and every length within its field. */
  predicate WellTyped(m: Manifest) {
    FieldsOk(FieldsOf(m))
  }

  /** The bytes of a manifest, its outputs in the order they are listed. */
  function EncodeListed(m: Manifest): Bytes {
    MAGIC + PutVersioned(m)
  }

  function BytesParser(n: nat, field: Field): Parser<Bytes, CodecError> {
    (b: Bytes) => ReadBytes(b, n, field)
  }

  function TagParser(field: Field): Parser<byte, CodecError> {
    (b: Bytes) => ReadTag(b, field)
  }

  function BodyParser(): Parser<Manifest, CodecError> {
    MapParser(FieldsParser(), ToManifest)
  }

  function VersionedParser(): Parser<Manifest, CodecError> {
    Guard(TagParser(Version), VERSION, (v: byte) => UnsupportedVersion(v), BodyParser())
  }

  function ManifestParser(): Parser<Manifest, CodecError> {
    Guard(BytesParser(4, Magic), MAGIC, (_: Bytes) => BadMagic, VersionedParser())
  }

  /** Nothing may follow. */
  function AtEnd<T>(r: Read<T>): Result<T, CodecError> {
    match r
    case Err(e) => Err(e)
    case Ok(Parsed(v, left)) => if left != [] then Err(TrailingBytes(|left|)) else Ok(v)
  }

  function Decode(b: Bytes): Result<Manifest, CodecError> {
    AtEnd(ManifestParser()(b))
  }

  lemma BytesParserExact(n: nat, field: Field)
    ensures Exact(BytesParser(n, field), (x: Bytes) => x, (x: Bytes) => |x| == n)
  {
    forall b
      ensures var r := ReadBytes(b, n, field); r.Ok? ==> b == r.value.value + r.value.rest && |r.value.value| == n
    {
      BytesExact(b, n, field);
    }
    forall x: Bytes, rest | |x| == n ensures ReadBytes(x + rest, n, field) == Ok(Parsed(x, rest)) {
      TakeParts(x, rest);
    }
  }

  lemma TagParserExact(field: Field)
    ensures Exact(TagParser(field), (t: byte) => [t], (_: byte) => true)
  {
    forall b | ReadTag(b, field).Ok? ensures b == [ReadTag(b, field).value.value] + ReadTag(b, field).value.rest {
      TagSound(b, field, ReadTag(b, field).value.value, ReadTag(b, field).value.rest);
    }
    forall t, rest ensures ReadTag([t] + rest, field) == Ok(Parsed(t, rest)) {
      TagComplete(t, field, rest);
    }
  }

  function PutBody(m: Manifest): Bytes {
    PutFields(FieldsOf(m))
  }

  function PutVersioned(m: Manifest): Bytes {
    [VERSION] + PutBody(m)
  }

  lemma BodyExact()
    ensures Exact(BodyParser(), PutBody, WellTyped)
  {
    FieldsExact();
    MapExact(FieldsParser(), PutFields, FieldsOk, ToManifest, FieldsOf, PutBody, WellTyped);
  }

  lemma VersionedExact()
    ensures Exact(VersionedParser(), PutVersioned, WellTyped)
  {
    BodyExact();
    TagParserExact(Version);
    var tag, any, refuse := (t: byte) => [t], (_: byte) => true, (v: byte) => UnsupportedVersion(v);
    GuardExact(TagParser(Version), tag, any, VERSION, refuse, BodyParser(), PutBody, WellTyped);
    SameExact(VersionedParser(), EncodeAfter(tag(VERSION), PutBody), WellTyped, PutVersioned, WellTyped);
  }

  /** Decoding accepts, and stops exactly at the end of, well-typed manifests' bytes. */
  lemma ManifestExact()
    ensures Exact(ManifestParser(), EncodeListed, WellTyped)
  {
    VersionedExact();
    BytesParserExact(4, Magic);
    var same, four, refuse := (x: Bytes) => x, (x: Bytes) => |x| == 4, (_: Bytes) => BadMagic;
    GuardExact(BytesParser(4, Magic), same, four, MAGIC, refuse, VersionedParser(), PutVersioned, WellTyped);
    SameExact(ManifestParser(), EncodeAfter(same(MAGIC), PutVersioned), WellTyped, EncodeListed, WellTyped);
  }

  // ---------------------------------------------------------------- the main results

  /** A byte string decodes to a manifest exactly when it is that manifest's bytes and the
      manifest is well typed; so decoding is injective on accepted bytes. */
  lemma DecodeExact(b: Bytes, m: Manifest)
    ensures Decode(b) == Ok(m) <==> b == EncodeListed(m) && WellTyped(m)
  {
    ManifestExact();
    assert EncodeListed(m) + [] == EncodeListed(m);
    if Decode(b).Ok? {
      var r := ManifestParser()(b).value;
      assert b == EncodeListed(r.value) + r.rest;
    }
  }

  /** Anything behind a complete manifest is refused, so no strict prefix of an accepted string is
      accepted. */
  lemma TrailingRefused(b: Bytes, extra: Bytes)
    requires Decode(b).Ok? && extra != []
    ensures Decode(b + extra) == Err(TrailingBytes(|extra|))
  {
    var m := Decode(b).value;
    DecodeExact(b, m);
    ManifestExact();
  }
}
