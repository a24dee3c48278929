/** The decoder's cursor and the encoder's buffer, proved against the format. */
module ManifestReader {
  import opened Prelude
  import opened Digests
  import opened Parsing
  import opened ManifestCodec
  import opened ManifestCanonical
  import opened Sorting
  import BE = BigEndian
  import Domains

  /** A read returned what the field's decoder gives, and left the cursor where it stops. */
  ghost predicate Agrees<T>(spec: Read<T>, r: Result<T, CodecError>, rest: Bytes) {
    match spec
    case Err(e) => r == Err(e)
    case Ok(Parsed(v, left)) => r == Ok(v) && rest == left
  }

  function ManyOutputs(b: Bytes, count: nat): Read<seq<Output>> {
    Many(Stateless(OutputParser()), Nothing, b, count, ())
  }

  /** One output more. */
  lemma OutputsSnoc(start: Bytes, k: nat, count: nat, outputs: seq<Output>, rest: Bytes)
    requires ManyOutputs(start, k) == Ok(Parsed(outputs, rest)) && k < count
    ensures match OutputParser()(rest)
      case Err(e) => ManyOutputs(start, count) == Err(e)
      case Ok(Parsed(o, left)) => ManyOutputs(start, k + 1) == Ok(Parsed(outputs + [o], left))
  {
    ManySnoc(Stateless(OutputParser()), Nothing, start, k, count, (), outputs, rest, ());
  }

  lemma AgreesAtEnd<T>(spec: Read<T>, r: Result<T, CodecError>, rest: Bytes)
    requires Agrees(spec, r, rest)
    ensures AtEnd(spec) == if r.Ok? && |rest| > 0 then Err(TrailingBytes(|rest|)) else r
  {
  }

  lemma DecodedAtEnd(bytes: Bytes, r: Result<Manifest, CodecError>, rest: Bytes)
    requires Agrees(ManifestParser()(bytes), r, rest)
    ensures Decode(bytes) == if r.Ok? && |rest| > 0 then Err(TrailingBytes(|rest|)) else r
  {
    AgreesAtEnd(ManifestParser()(bytes), r, rest);
  }

  class Reader {
    const bytes: Bytes
    var at: nat

    predicate Valid()
      reads this
    {
      at <= |bytes|
    }

    function Rest(): Bytes
      requires Valid()
      reads this
    {
      bytes[at..]
    }

    constructor (bytes: Bytes)
      ensures Valid() && Rest() == bytes && this.bytes == bytes
    {
      this.bytes := bytes;
      at := 0;
    }

    method Take(n: nat, field: Field) returns (r: Result<Bytes, CodecError>)
      requires Valid()
      modifies this
      ensures Valid() && Agrees(ReadBytes(old(Rest()), n, field), r, Rest())
      ensures r.Err? ==> at == old(at)
    {
      if |bytes| < at + n { return Err(TruncatedAt(field)); }
      r := Ok(bytes[at..at+n]);
      assert bytes[at..][..n] == bytes[at..at+n] && bytes[at..][n..] == bytes[at+n..];
      at := at + n;
    }

    method Tag(field: Field) returns (r: Result<byte, CodecError>)
      requires Valid()
      modifies this
      ensures Valid() && Agrees(ReadTag(old(Rest()), field), r, Rest())
    {
      var x := Take(1, field);
      match x
      case Err(e) => return Err(e);
      case Ok(v) => return Ok(v[0]);
    }

    method Uint(w: nat, field: Field) returns (r: Result<nat, CodecError>)
      requires Valid()
      modifies this
      ensures Valid() && Agrees(ReadUint(old(Rest()), w, field), r, Rest())
    {
      var x := Take(w, field);
      match x
      case Err(e) => return Err(e);
      case Ok(v) => return Ok(BE.Decode(v));
    }

    method Digest(field: Field, domain: Bytes) returns (r: Result<TypedDigest, CodecError>)
      requires Valid()
      modifies this
      ensures Valid() && Agrees(ReadDigest(old(Rest()), field, domain), r, Rest())
    {
      var algo := Tag(field);
      if algo.Err? { return Err(algo.error); }
      if algo.value != ALGO_SHA256_V1 { return Err(UnknownAlgorithm(algo.value)); }
      var n := Uint(2, field);
      if n.Err? { return Err(n.error); }
      var found := Take(n.value, field);
      if found.Err? { return Err(found.error); }
      if found.value != domain { return Err(UnexpectedDomain(field, domain, found.value)); }
      var x := Take(32, field);
      if x.Err? { return Err(x.error); }
      return Ok(TypedDigest(domain, x.value));
    }

    method Kind() returns (r: Result<ResultKind, CodecError>)
      requires Valid()
      modifies this
      ensures Valid() && Agrees(ReadKind(old(Rest())), r, Rest())
    {
      var tag := Tag(ResultKindTag);
      if tag.Err? { return Err(tag.error); }
      match KindFromTag(tag.value)
      case None => return Err(UnknownResultKind(tag.value));
      case Some(k) => return Ok(k);
    }

    method Root() returns (r: Result<Option<TypedDigest>, CodecError>)
      requires Valid()
      modifies this
      ensures Valid() && Agrees(ReadRoot(old(Rest())), r, Rest())
    {
      var flag := Tag(BundleRootPresent);
      if flag.Err? { return Err(flag.error); }
      if flag.value == 0 { return Ok(None); }
      if flag.value != 1 { return Err(UnknownResultKind(flag.value)); }
      var d := Digest(BundleRoot, Domains.BUNDLE_ROOT);
      if d.Err? { return Err(d.error); }
      return Ok(Some(d.value));
    }

    method LogicalOutput() returns (r: Result<Output, CodecError>)
      requires Valid()
      modifies this
      ensures Valid() && Agrees(OutputParser()(old(Rest())), r, Rest())
    {
      var tag := Tag(RoleTag);
      if tag.Err? { return Err(tag.error); }
      var role := RoleFromTag(tag.value);
      if role.None? { return Err(UnknownOutputRole(tag.value)); }
      var n := Uint(4, PathLength);
      if n.Err? { return Err(n.error); }
      var path := Take(n.value, Path);
      if path.Err? { return Err(path.error); }
      var content := Digest(OutputObject, Domains.CONTENT);
      if content.Err? { return Err(content.error); }
      return Ok(Output(role.value, path.value, content.value));
    }

    method Outputs() returns (r: Result<seq<Output>, CodecError>)
      requires Valid()
      modifies this
      ensures Valid() && Agrees(OutputsParser()(old(Rest())), r, Rest())
    {
      var count := Uint(4, OutputCount);
      if count.Err? { return Err(count.error); }
      ghost var start := Rest();
      var outputs: seq<Output> := [];
      for k := 0 to count.value
        invariant Valid() && ManyOutputs(start, k) == Ok(Parsed(outputs, Rest()))
      {
        OutputsSnoc(start, k, count.value, outputs, Rest());
        var output := LogicalOutput();
        if output.Err? { return Err(output.error); }
        outputs := outputs + [output.value];
      }
      return Ok(outputs);
    }

    method Tail() returns (r: Result<ManifestCodec.Tail, CodecError>)
      requires Valid()
      modifies this
      ensures Valid() && Agrees(TailParser()(old(Rest())), r, Rest())
    {
      var root := Root();
      if root.Err? { return Err(root.error); }
      var outputs := Outputs();
      if outputs.Err? { return Err(outputs.error); }
      var semantic := Digest(Semantic, Domains.SEMANTIC);
      if semantic.Err? { return Err(semantic.error); }
      var observable := Digest(Observable, Domains.OBSERVABLE);
      if observable.Err? { return Err(observable.error); }
      return Ok((root.value, (outputs.value, (semantic.value, observable.value))));
    }

    method Middle() returns (r: Result<ManifestCodec.Middle, CodecError>)
      requires Valid()
      modifies this
      ensures Valid() && Agrees(MiddleParser()(old(Rest())), r, Rest())
    {
      var keyEpoch := Uint(4, KeyEpoch);
      if keyEpoch.Err? { return Err(keyEpoch.error); }
      var projectionEpoch := Uint(4, ProjectionEpoch);
      if projectionEpoch.Err? { return Err(projectionEpoch.error); }
      var kind := Kind();
      if kind.Err? { return Err(kind.error); }
      var tail := Tail();
      if tail.Err? { return Err(tail.error); }
      return Ok((keyEpoch.value, (projectionEpoch.value, (kind.value, tail.value))));
    }

    method Body() returns (r: Result<Manifest, CodecError>)
      requires Valid()
      modifies this
      ensures Valid() && Agrees(BodyParser()(old(Rest())), r, Rest())
    {
      var actionKey := Digest(ActionKey, Domains.ACTION_KEY);
      if actionKey.Err? { return Err(actionKey.error); }
      var descriptor := Digest(Descriptor, Domains.DESCRIPTOR);
      if descriptor.Err? { return Err(descriptor.error); }
      var middle := Middle();
      if middle.Err? { return Err(middle.error); }
      return Ok(ToManifest((actionKey.value, (descriptor.value, middle.value))));
    }

    method Manifest() returns (r: Result<Manifest, CodecError>)
      requires Valid()
      modifies this
      ensures Valid() && Agrees(ManifestParser()(old(Rest())), r, Rest())
    {
      var magic := Take(4, Magic);
      if magic.Err? { return Err(magic.error); }
      if magic.value != MAGIC { return Err(BadMagic); }
      var version := Tag(Version);
      if version.Err? { return Err(version.error); }
      if version.value != VERSION { return Err(UnsupportedVersion(version.value)); }
      r := Body();
    }

    /** A manifest with nothing behind it. */
    method Whole() returns (r: Result<Manifest, CodecError>)
      requires Valid()
      modifies this
      ensures r == Decode(old(Rest()))
    {
      r := Manifest();
      ghost var left := Rest();
      assert |left| == |bytes| - at;
      DecodedAtEnd(old(Rest()), r, left);
      if r.Ok? && at != |bytes| { r := Err(TrailingBytes(|bytes| - at)); }
    }
  }

  /** `decode_manifest_v1`. */
  method DecodeManifest(bytes: Bytes) returns (r: Result<Manifest, CodecError>)
    ensures r == Decode(bytes)
  {
    var reader := new Reader(bytes);
    r := reader.Whole();
  }

  // ---------------------------------------------------------------- the encoder

  lemma {:induction false} ConcatAppend(os: seq<Output>, o: Output)
    ensures Concat(PutOutput, os + [o]) == Concat(PutOutput, os) + PutOutput(o)
  {
    if os == [] {
      assert os + [o] == [o];
    } else {
      assert (os + [o])[1..] == os[1..] + [o];
      ConcatAppend(os[1..], o);
      Rebracket(PutOutput(os[0]), Concat(PutOutput, os[1..]), PutOutput(o));
    }
  }

  method PutOutputList(out: Bytes, outputs: seq<Output>) returns (r: Bytes)
    ensures r == out + PutOutputs(outputs)
  {
    r := out + PutU32(|outputs|);
    ghost var start := r;
    for i := 0 to |outputs|
      invariant r == start + Concat(PutOutput, outputs[..i])
    {
      assert outputs[..i+1] == outputs[..i] + [outputs[i]];
      ConcatAppend(outputs[..i], outputs[i]);
      var o := outputs[i];
      r := r + PutRole(o.role);
      r := r + PutPath(o.path);
      r := r + PutDigest(o.content);
    }
    assert outputs[..|outputs|] == outputs;
    Rebracket(out, PutU32(|outputs|), Concat(PutOutput, outputs));
  }

  lemma Flatten(p: Bytes, a: Bytes, b: Bytes, c: Bytes, rest: Bytes)
    ensures p + a + b + c + rest == p + (a + (b + (c + rest)))
  {
  }

  /** `encode_manifest_v1`: fields appended one after another. */
  method EncodeManifest(m: Manifest) returns (out: Bytes)
    ensures out == Encode(m)
  {
    var outputs := Sort(m.outputs, OutputOrder);
    out := MAGIC + [VERSION] + PutDigest(m.actionKey) + PutDigest(m.descriptor);
    ghost var middle := FieldsOf(Canonical(m)).1.1;
    Flatten(MAGIC, [VERSION], PutDigest(m.actionKey), PutDigest(m.descriptor), PutMiddle(middle));
    assert out + PutMiddle(middle) == Encode(m);
    out := EncodeMiddle(out, m, outputs);
  }

  method EncodeMiddle(prefix: Bytes, m: Manifest, outputs: seq<Output>) returns (out: Bytes)
    ensures out == prefix + PutMiddle(FieldsOf(m.(outputs := outputs)).1.1)
  {
    out := prefix + PutU32(m.keyEpoch) + PutU32(m.projectionEpoch) + PutKind(m.kind);
    ghost var tail := FieldsOf(m.(outputs := outputs)).1.1.1.1.1;
    Flatten(prefix, PutU32(m.keyEpoch), PutU32(m.projectionEpoch), PutKind(m.kind), PutTail(tail));
    ghost var before := out;
    out := out + PutRoot(m.bundleRoot);
    out := PutOutputList(out, outputs);
    out := out + PutDigest(m.semantic) + PutDigest(m.observable);
    Flatten(before, PutRoot(m.bundleRoot), PutOutputs(outputs), PutDigest(m.semantic), PutDigest(m.observable));
  }
}
