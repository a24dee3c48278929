/** What the manifest decoder refuses, and as what: wrong headers, tags and digests by their bytes,
    and every manifest cut short. */
module ManifestRefusals {
  import opened Prelude
  import opened Digests
  import opened Parsing
  import opened ManifestCodec
  import BE = BigEndian
  import Domains

  // ---------------------------------------------------------------- the header

  /** The header decides first: four bytes "RMF1", then a version byte of one. */
  lemma HeaderRefusals(b: Bytes)
    ensures Decode(b) == Err(TruncatedAt(Magic)) <==> |b| < 4
    ensures Decode(b) == Err(BadMagic) <==> |b| >= 4 && b[..4] != Ascii("RMF1")
    ensures Decode(b) == Err(TruncatedAt(Version)) <==> |b| == 4 && b == Ascii("RMF1")
    ensures forall v :: Decode(b) == Err(UnsupportedVersion(v)) <==>
      |b| >= 5 && b[..4] == Ascii("RMF1") && b[4] == v && v != 1
  {
    MagicBytes();
    if |b| >= 4 && b[..4] == MAGIC {
      HeaderVersion(b);
    }
  }

  lemma MagicBytes()
    ensures MAGIC == Ascii("RMF1")
  {
  }

  /** Past the header no refusal is one of the header's. */
  ghost predicate Inside<T>(r: Read<T>) {
    r.Err? ==>
      && !r.error.BadMagic? && !r.error.UnsupportedVersion? && !r.error.TrailingBytes?
      && r.error != TruncatedAt(Magic) && r.error != TruncatedAt(Version)
  }

  lemma DigestInside(b: Bytes, field: Field, domain: Bytes)
    requires !field.Magic? && !field.Version?
    ensures Inside(ReadDigest(b, field, domain))
  {
    DigestRefusals(b, field, domain);
  }

  lemma PairInside<A, B>(p: Parser<A, CodecError>, q: Parser<B, CodecError>, b: Bytes)
    requires Inside(p(b)) && (p(b).Ok? ==> Inside(q(p(b).value.rest)))
    ensures Inside(Pair(p, q)(b))
  {
  }

  lemma OutputInside(b: Bytes)
    ensures Inside(OutputParser()(b))
  {
    var dp := DigestParser(OutputObject, Domains.CONTENT);
    forall rest ensures Inside(dp(rest)) { DigestInside(rest, OutputObject, Domains.CONTENT); }
    forall rest ensures Inside(Pair(ReadPath, dp)(rest)) { PairInside(ReadPath, dp, rest); }
    PairInside(ReadRole, Pair(ReadPath, dp), b);
  }

  lemma {:induction false} ManyInside<T>(p: Parser<T, CodecError>, b: Bytes, count: nat)
    requires forall rest :: Inside(p(rest))
    ensures Inside(Many(Stateless(p), Nothing, b, count, ()))
    decreases count
  {
    if count > 0 {
      assert Inside(p(b));
      if p(b).Ok? { ManyInside(p, p(b).value.rest, count - 1); }
    }
  }

  lemma TailInside(b: Bytes)
    ensures Inside(TailParser()(b))
  {
    var sp, op := DigestParser(Semantic, Domains.SEMANTIC), DigestParser(Observable, Domains.OBSERVABLE);
    forall rest ensures Inside(Pair(sp, op)(rest)) {
      DigestInside(rest, Semantic, Domains.SEMANTIC);
      if sp(rest).Ok? { DigestInside(sp(rest).value.rest, Observable, Domains.OBSERVABLE); }
      PairInside(sp, op, rest);
    }
    forall rest ensures Inside(OutputParser()(rest)) { OutputInside(rest); }
    forall rest ensures Inside(OutputsParser()(rest)) {
      var count := U32Parser(OutputCount)(rest);
      if count.Ok? { ManyInside(OutputParser(), count.value.rest, count.value.value); }
    }
    forall rest ensures Inside(Pair(OutputsParser(), Pair(sp, op))(rest)) {
      PairInside(OutputsParser(), Pair(sp, op), rest);
    }
    RootInside(b);
    PairInside(ReadRoot, Pair(OutputsParser(), Pair(sp, op)), b);
  }

  lemma RootInside(b: Bytes)
    ensures Inside(ReadRoot(b))
  {
    if |b| > 0 { DigestInside(b[1..], BundleRoot, Domains.BUNDLE_ROOT); }
  }

  lemma FieldsInside(b: Bytes)
    ensures Inside(FieldsParser()(b))
  {
    forall rest ensures Inside(MiddleParser()(rest)) { MiddleInside(rest); }
    var ap, dp := DigestParser(ActionKey, Domains.ACTION_KEY), DigestParser(Descriptor, Domains.DESCRIPTOR);
    forall rest ensures Inside(Pair(dp, MiddleParser())(rest)) {
      DigestInside(rest, Descriptor, Domains.DESCRIPTOR);
      PairInside(dp, MiddleParser(), rest);
    }
    DigestInside(b, ActionKey, Domains.ACTION_KEY);
    PairInside(ap, Pair(dp, MiddleParser()), b);
  }

  lemma MiddleInside(b: Bytes)
    ensures Inside(MiddleParser()(b))
  {
    forall rest ensures Inside(TailParser()(rest)) { TailInside(rest); }
    forall rest ensures Inside(Pair(ReadKind, TailParser())(rest)) { PairInside(ReadKind, TailParser(), rest); }
    var inner := Pair(ReadKind, TailParser());
    forall rest ensures Inside(Pair(U32Parser(ProjectionEpoch), inner)(rest)) {
      PairInside(U32Parser(ProjectionEpoch), inner, rest);
    }
    PairInside(U32Parser(KeyEpoch), Pair(U32Parser(ProjectionEpoch), inner), b);
  }

  lemma HeaderVersion(b: Bytes)
    requires |b| >= 4 && b[..4] == MAGIC
    ensures |b| == 4 ==> Decode(b) == Err(TruncatedAt(Version))
    ensures |b| > 4 && b[4] != 1 ==> Decode(b) == Err(UnsupportedVersion(b[4]))
    ensures |b| > 4 && b[4] == 1 ==> Decode(b).Err? ==>
      !Decode(b).error.BadMagic? && !Decode(b).error.UnsupportedVersion?
      && Decode(b).error != TruncatedAt(Magic) && Decode(b).error != TruncatedAt(Version)
  {
    if |b| > 4 {
      assert b[4..][0] == b[4];
      FieldsInside(b[4..][1..]);
    }
  }

  // ---------------------------------------------------------------- one digest, by its bytes

  /** A digest field: an algorithm byte of one, a two-byte domain length, the domain the field is
      for, and 32 bytes. The first of these that fails is the refusal. */
  lemma DigestRefusals(b: Bytes, field: Field, domain: Bytes)
    ensures var r := ReadDigest(b, field, domain);
      if |b| == 0 then r == Err(TruncatedAt(field))
      else if b[0] != 1 then r == Err(UnknownAlgorithm(b[0]))
      else if |b| < 3 then r == Err(TruncatedAt(field))
      else
        var n := 256 * (b[1] as int) + b[2] as int;
        if |b| < 3 + n then r == Err(TruncatedAt(field))
        else if b[3..3+n] != domain then r == Err(UnexpectedDomain(field, domain, b[3..3+n]))
        else if |b| < 35 + n then r == Err(TruncatedAt(field))
        else r == Ok(Parsed(TypedDigest(domain, b[3+n..35+n]), b[35+n..]))
  {
    if |b| >= 3 && b[0] == 1 {
      var rest := b[1..];
      TwoBytes(rest);
      var n := BE.Decode(rest[..2]);
      if |b| >= 3 + n { assert rest[2..][..n] == b[3..3+n]; }
      if |b| >= 35 + n {
        assert rest[2..][n..][..32] == b[3+n..35+n];
        assert rest[2..][n..][32..] == b[35+n..];
      }
    }
  }

  lemma TwoBytes(b: Bytes)
    requires |b| >= 2
    ensures BE.Decode(b[..2]) == 256 * (b[0] as int) + b[1] as int
  {
    assert b[..2][..1] == [b[0]] && [b[0]][..0] == [];
    assert BE.Decode([b[0]]) == b[0];
  }

  /** Tags by number. A flag past one before the bundle root is refused as a result kind. */
  lemma TagRefusals(tag: byte, rest: Bytes)
    ensures tag > 1 ==> ReadKind([tag] + rest) == Err(UnknownResultKind(tag))
    ensures tag > 4 ==> ReadRole([tag] + rest) == Err(UnknownOutputRole(tag))
    ensures tag > 1 ==> ReadRoot([tag] + rest) == Err(UnknownResultKind(tag))
    ensures ReadKind([0] + rest) == Ok(Parsed(Success, rest))
    ensures ReadKind([1] + rest) == Ok(Parsed(DeterministicFailure, rest))
    ensures ReadRoot([0] + rest) == Ok(Parsed(None, rest))
  {
    TagComplete(tag, ResultKindTag, rest);
    TagComplete(tag, RoleTag, rest);
    TagComplete(tag, BundleRootPresent, rest);
    TagComplete(0, ResultKindTag, rest);
    TagComplete(1, ResultKindTag, rest);
    TagComplete(0, BundleRootPresent, rest);
  }

  // ---------------------------------------------------------------- cut short

  /** Whatever a parser accepted, every shorter start of it is refused as truncated. */
  ghost predicate Starves<T>(p: Parser<T, CodecError>) {
    forall b, n: nat :: p(b).Ok? && n + |p(b).value.rest| < |b| ==> p(b[..n]).Err? && p(b[..n]).error.TruncatedAt?
  }

  lemma PairStarves<A(!new), B(!new)>(p: Parser<A, CodecError>, e: A -> Bytes, ok: A -> bool, q: Parser<B, CodecError>)
    requires Exact(p, e, ok) && Starves(p) && Starves(q)
    requires forall b :: q(b).Ok? ==> |q(b).value.rest| <= |b|
    ensures Starves(Pair(p, q))
  {
    forall b, n: nat | Pair(p, q)(b).Ok? && n + |Pair(p, q)(b).value.rest| < |b|
      ensures Pair(p, q)(b[..n]).Err? && Pair(p, q)(b[..n]).error.TruncatedAt?
    {
      var Parsed(x, rest) := p(b).value;
      var k := |e(x)|;
      if n >= k {
        assert b[..n] == e(x) + rest[..n-k];
        assert q(rest[..n-k]).Err?;
      } else {
        assert p(b[..n]).Err?;
      }
    }
  }

  lemma ExactShrinks<T(!new)>(p: Parser<T, CodecError>, e: T -> Bytes, ok: T -> bool)
    requires Exact(p, e, ok)
    ensures forall b :: p(b).Ok? ==> |p(b).value.rest| <= |b|
  {
  }

  lemma MapStarves<A, B>(p: Parser<A, CodecError>, f: A -> B)
    requires Starves(p)
    ensures Starves(MapParser(p, f))
  {
    forall b, n: nat | MapParser(p, f)(b).Ok? && n + |MapParser(p, f)(b).value.rest| < |b|
      ensures MapParser(p, f)(b[..n]).Err? && MapParser(p, f)(b[..n]).error.TruncatedAt?
    {
      assert p(b[..n]).Err?;
    }
  }

  lemma GuardStarves<A(!new), B(!new)>(p: Parser<A, CodecError>, e: A -> Bytes, ok: A -> bool, want: A,
                                       refuse: A -> CodecError, q: Parser<B, CodecError>)
    requires Exact(p, e, ok) && Starves(p) && Starves(q)
    requires forall b :: q(b).Ok? ==> |q(b).value.rest| <= |b|
    ensures Starves(Guard(p, want, refuse, q))
  {
    var g := Guard(p, want, refuse, q);
    forall b, n: nat | g(b).Ok? && n + |g(b).value.rest| < |b| ensures g(b[..n]).Err? && g(b[..n]).error.TruncatedAt? {
      var Parsed(x, rest) := p(b).value;
      var k := |e(x)|;
      if n >= k {
        assert b[..n] == e(x) + rest[..n-k];
        assert q(rest[..n-k]).Err?;
      } else {
        assert p(b[..n]).Err?;
      }
    }
  }

  lemma {:induction false} ManyStarves<T(!new)>(p: Parser<T, CodecError>, e: T -> Bytes, ok: T -> bool, b: Bytes,
                                               count: nat, n: nat)
    requires Exact(p, e, ok) && Starves(p)
    requires var r := Many(Stateless(p), Nothing, b, count, ()); r.Ok? && n + |r.value.rest| < |b|
    ensures var r := Many(Stateless(p), Nothing, b[..n], count, ()); r.Err? && r.error.TruncatedAt?
    decreases count
  {
    var Parsed(x, rest) := p(b).value;
    var k := |e(x)|;
    if n >= k {
      assert b[..n] == e(x) + rest[..n-k];
      ManyStarves(p, e, ok, rest, count - 1, n - k);
    } else {
      assert p(b[..n]).Err?;
    }
  }

  lemma CountedStarves<T(!new)>(c: Parser<nat, CodecError>, ec: nat -> Bytes, okc: nat -> bool,
                               p: Parser<T, CodecError>, e: T -> Bytes, ok: T -> bool)
    requires Exact(c, ec, okc) && Starves(c) && Exact(p, e, ok) && Starves(p)
    ensures Starves(Counted(c, p))
  {
    var g := Counted(c, p);
    forall b, n: nat | g(b).Ok? && n + |g(b).value.rest| < |b| ensures g(b[..n]).Err? && g(b[..n]).error.TruncatedAt? {
      var Parsed(count, rest) := c(b).value;
      var k := |ec(count)|;
      if n >= k {
        assert b[..n] == ec(count) + rest[..n-k];
        ManyStarves(p, e, ok, rest, count, n - k);
      } else {
        assert c(b[..n]).Err?;
      }
    }
  }

  // ---------------------------------------------------------------- the fields, cut short

  lemma U32Starves(field: Field)
    ensures Starves(U32Parser(field))
  {
    var p := U32Parser(field);
    forall b, n: nat | p(b).Ok? && n + |p(b).value.rest| < |b| ensures p(b[..n]).Err? && p(b[..n]).error.TruncatedAt? {
      assert |p(b).value.rest| == |b| - 4;
      assert ReadBytes(b[..n], 4, field) == Err(TruncatedAt(field));
    }
  }

  lemma TagStarves(field: Field)
    ensures Starves(TagParser(field))
  {
  }

  lemma BytesStarve(n: nat, field: Field)
    ensures Starves(BytesParser(n, field))
  {
  }

  lemma DigestStarves(field: Field, domain: Bytes)
    ensures Starves(DigestParser(field, domain))
  {
    var p := DigestParser(field, domain);
    forall b, n: nat | p(b).Ok? && n + |p(b).value.rest| < |b| ensures p(b[..n]).Err? && p(b[..n]).error.TruncatedAt? {
      DigestRefusals(b, field, domain);
      DigestRefusals(b[..n], field, domain);
      var k := 256 * (b[1] as int) + b[2] as int;
      if n >= 3 + k { assert b[..n][3..3+k] == b[3..3+k]; }
    }
  }

  lemma PathStarves()
    ensures Starves(ReadPath)
  {
    forall b, n: nat | ReadPath(b).Ok? && n + |ReadPath(b).value.rest| < |b|
      ensures ReadPath(b[..n]).Err? && ReadPath(b[..n]).error.TruncatedAt?
    {
      if n >= 4 { assert b[..n][..4] == b[..4]; }
    }
  }

  lemma KindStarves()
    ensures Starves(ReadKind) && Starves(ReadRole)
  {
  }

  lemma RootStarves()
    ensures Starves(ReadRoot)
  {
    forall b, n: nat | ReadRoot(b).Ok? && n + |ReadRoot(b).value.rest| < |b|
      ensures ReadRoot(b[..n]).Err? && ReadRoot(b[..n]).error.TruncatedAt?
    {
      if n >= 1 {
        var p := DigestParser(BundleRoot, Domains.BUNDLE_ROOT);
        DigestStarves(BundleRoot, Domains.BUNDLE_ROOT);
        assert b[..n][1..] == b[1..][..n-1];
        assert p(b[1..]).Ok?;
        assert p(b[1..][..n-1]).Err?;
      }
    }
  }

  lemma OutputStarves()
    ensures Starves(OutputParser())
  {
    var dp := DigestParser(OutputObject, Domains.CONTENT);
    DigestStarves(OutputObject, Domains.CONTENT);
    DigestExact(OutputObject, Domains.CONTENT);
    PathStarves();
    PathExact();
    KindStarves();
    RoleExact();
    ExactShrinks(dp, PutDigest, DigestOk(Domains.CONTENT));
    PairStarves(ReadPath, PutPath, PathFits, dp);
    PairExact(ReadPath, PutPath, PathFits, dp, PutDigest, DigestOk(Domains.CONTENT));
    ExactShrinks(Pair(ReadPath, dp), EncodePair(PutPath, PutDigest), Both(PathFits, DigestOk(Domains.CONTENT)));
    PairStarves(ReadRole, PutRole, (_: Role) => true, Pair(ReadPath, dp));
    MapStarves(Pair(ReadRole, Pair(ReadPath, dp)), ToOutput);
  }

  lemma OutputsStarve()
    ensures Starves(OutputsParser())
  {
    U32Starves(OutputCount);
    U32Exact(OutputCount);
    OutputStarves();
    OutputExact();
    CountedStarves(U32Parser(OutputCount), PutU32, FitsU32, OutputParser(), PutOutput, OutputOk);
  }

  lemma TailStarves()
    ensures Starves(TailParser())
  {
    var sp, op := DigestParser(Semantic, Domains.SEMANTIC), DigestParser(Observable, Domains.OBSERVABLE);
    var sok, ook := DigestOk(Domains.SEMANTIC), DigestOk(Domains.OBSERVABLE);
    DigestStarves(Semantic, Domains.SEMANTIC);
    DigestStarves(Observable, Domains.OBSERVABLE);
    DigestExact(Semantic, Domains.SEMANTIC);
    DigestExact(Observable, Domains.OBSERVABLE);
    ExactShrinks(op, PutDigest, ook);
    PairStarves(sp, PutDigest, sok, op);
    PairExact(sp, PutDigest, sok, op, PutDigest, ook);
    var p1, e1, ok1 := Pair(sp, op), EncodePair(PutDigest, PutDigest), Both(sok, ook);
    ExactShrinks(p1, e1, ok1);
    OutputsStarve();
    OutputsExact();
    PairStarves(OutputsParser(), PutOutputs, OutputsOk, p1);
    PairExact(OutputsParser(), PutOutputs, OutputsOk, p1, e1, ok1);
    var p2, e2, ok2 := Pair(OutputsParser(), p1), EncodePair(PutOutputs, e1), Both(OutputsOk, ok1);
    ExactShrinks(p2, e2, ok2);
    RootStarves();
    RootExact();
    PairStarves(ReadRoot, PutRoot, RootInDomain, p2);
  }

  lemma MiddleStarves()
    ensures Starves(MiddleParser())
  {
    var kok := (_: ResultKind) => true;
    TailStarves();
    TailExact();
    KindStarves();
    KindExact();
    U32Starves(KeyEpoch);
    U32Exact(KeyEpoch);
    U32Starves(ProjectionEpoch);
    U32Exact(ProjectionEpoch);
    ExactShrinks(TailParser(), PutTail, TailOk);
    PairStarves(ReadKind, PutKind, kok, TailParser());
    PairExact(ReadKind, PutKind, kok, TailParser(), PutTail, TailOk);
    var p1, e1, ok1 := Pair(ReadKind, TailParser()), EncodePair(PutKind, PutTail), Both(kok, TailOk);
    ExactShrinks(p1, e1, ok1);
    PairStarves(U32Parser(ProjectionEpoch), PutU32, FitsU32, p1);
    PairExact(U32Parser(ProjectionEpoch), PutU32, FitsU32, p1, e1, ok1);
    var p2, e2, ok2 := Pair(U32Parser(ProjectionEpoch), p1), EncodePair(PutU32, e1), Both(FitsU32, ok1);
    ExactShrinks(p2, e2, ok2);
    PairStarves(U32Parser(KeyEpoch), PutU32, FitsU32, p2);
  }

  lemma FieldsStarve()
    ensures Starves(FieldsParser())
  {
    var ap, dp := DigestParser(ActionKey, Domains.ACTION_KEY), DigestParser(Descriptor, Domains.DESCRIPTOR);
    var aok, dok := DigestOk(Domains.ACTION_KEY), DigestOk(Domains.DESCRIPTOR);
    MiddleStarves();
    MiddleExact();
    DigestStarves(ActionKey, Domains.ACTION_KEY);
    DigestExact(ActionKey, Domains.ACTION_KEY);
    DigestStarves(Descriptor, Domains.DESCRIPTOR);
    DigestExact(Descriptor, Domains.DESCRIPTOR);
    ExactShrinks(MiddleParser(), PutMiddle, MiddleOk);
    PairStarves(dp, PutDigest, dok, MiddleParser());
    PairExact(dp, PutDigest, dok, MiddleParser(), PutMiddle, MiddleOk);
    var p1, e1, ok1 := Pair(dp, MiddleParser()), EncodePair(PutDigest, PutMiddle), Both(dok, MiddleOk);
    ExactShrinks(p1, e1, ok1);
    PairStarves(ap, PutDigest, aok, p1);
  }

  lemma ManifestStarves()
    ensures Starves(ManifestParser())
  {
    FieldsStarve();
    MapStarves(FieldsParser(), ToManifest);
    BodyExact();
    ExactShrinks(BodyParser(), PutBody, WellTyped);
    TagStarves(Version);
    TagParserExact(Version);
    GuardStarves(TagParser(Version), (t: byte) => [t], (_: byte) => true, VERSION, (v: byte) => UnsupportedVersion(v),
                 BodyParser());
    VersionedExact();
    ExactShrinks(VersionedParser(), PutVersioned, WellTyped);
    BytesStarve(4, Magic);
    BytesParserExact(4, Magic);
    GuardStarves(BytesParser(4, Magic), (x: Bytes) => x, (x: Bytes) => |x| == 4, MAGIC, (_: Bytes) => BadMagic,
                 VersionedParser());
  }

  /** A manifest cut short anywhere is refused, and refused as truncated: a partial upload is never
      read as another manifest or as a foreign format. */
  lemma TruncationRefused(b: Bytes, n: nat)
    requires Decode(b).Ok? && n < |b|
    ensures Decode(b[..n]).Err? && Decode(b[..n]).error.TruncatedAt?
  {
    ManifestStarves();
    assert ManifestParser()(b[..n]).Err?;
  }
}
