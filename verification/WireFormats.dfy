/** The stored formats byte by byte: names as text, tags by number, fields in their order. What an
    encoder and its decoder share, and so could get wrong together, is fixed here. */
module WireFormats {
  import opened Prelude
  import opened Digests
  import opened Parsing
  import opened ManifestCodec
  import opened ManifestCanonical
  import Lex = Lexicographic
  import BE = BigEndian
  import Sorting
  import Domains

  // ---------------------------------------------------------------- the manifest

  const KEY_DOMAIN := "rabs.action-key.sha256.v1"
  const DESCRIPTOR_DOMAIN := "rabs.descriptor.sha256.v1"
  const ROOT_DOMAIN := "rabs.artifact-bundle-root.v1"
  const CONTENT_DOMAIN := "rabs.object.sha256.v1"
  const SEMANTIC_DOMAIN := "rabs.semantic-result-projection.sha256.v1"
  const OBSERVABLE_DOMAIN := "rabs.observable-result-projection.sha256.v1"

  ghost predicate Tagged(d: TypedDigest, domain: string) {
    d.domain == Ascii(domain) && |d.bytes| == 32
  }

  /** The manifests the format admits: each digest of 32 bytes under the domain its field is for,
      epochs, counts and path lengths of 32 bits. */
  lemma WellTypedMeans(m: Manifest)
    ensures WellTyped(m) <==>
      && Tagged(m.actionKey, KEY_DOMAIN) && Tagged(m.descriptor, DESCRIPTOR_DOMAIN)
      && m.keyEpoch < 0x1_0000_0000 && m.projectionEpoch < 0x1_0000_0000
      && (m.bundleRoot.Some? ==> Tagged(m.bundleRoot.value, ROOT_DOMAIN))
      && |m.outputs| < 0x1_0000_0000
      && (forall i :: 0 <= i < |m.outputs| ==>
            |m.outputs[i].path| < 0x1_0000_0000 && Tagged(m.outputs[i].content, CONTENT_DOMAIN))
      && Tagged(m.semantic, SEMANTIC_DOMAIN) && Tagged(m.observable, OBSERVABLE_DOMAIN)
  {
  }

  /** Roles in the order of their tags. */
  const ROLES: seq<Role> := [Materializable, DepInfo, ProvisionalMetadata, BuildScriptMetadata, TestSideEffect]

  /** Algorithm, domain length, domain, digest. */
  function DigestLayout(d: TypedDigest): Bytes {
    [1] + BE.Encode(|d.domain|, 2) + d.domain + d.bytes
  }

  function RootLayout(root: Option<TypedDigest>): Bytes {
    if root.None? then [0] else [1] + DigestLayout(root.value)
  }

  /** Tag, path length, path, content. */
  function OutputLayout(tag: byte, path: Bytes, content: TypedDigest): Bytes {
    [tag] + BE.Encode(|path|, 4) + path + DigestLayout(content)
  }

  lemma RoleTags(r: Role)
    ensures RoleTagOf(r) < |ROLES| && ROLES[RoleTagOf(r)] == r
  {
  }

  lemma DigestLaidOut(d: TypedDigest)
    requires |d.domain| < 0x1_0000
    ensures PutDigest(d) == DigestLayout(d)
  {
    BE.Widths();
    var n := BE.Encode(|d.domain|, 2);
    assert [1] + (n + d.domain + d.bytes) == [1] + n + d.domain + d.bytes;
  }

  lemma LengthLaidOut(n: nat)
    requires n < 0x1_0000_0000
    ensures PutU32(n) == BE.Encode(n, 4)
  {
    BE.Widths();
  }

  /** Outputs follow each other, each under a tag that numbers its role. */
  lemma OutputLaidOut(o: Output)
    requires OutputOk(o)
    ensures exists tag: byte ::
      tag < |ROLES| && ROLES[tag] == o.role && PutOutput(o) == OutputLayout(tag, o.path, o.content)
  {
    var tag := RoleTagOf(o.role);
    RoleTags(o.role);
    DigestLaidOut(o.content);
    LengthLaidOut(|o.path|);
    var n, d := BE.Encode(|o.path|, 4), DigestLayout(o.content);
    assert [tag] + (n + o.path + d) == [tag] + n + o.path + d;
    assert PutOutput(o) == OutputLayout(tag, o.path, o.content);
  }

  lemma ManifestFlat(m: Manifest)
    ensures EncodeListed(m) ==
      MAGIC + [1] + PutDigest(m.actionKey) + PutDigest(m.descriptor) + PutU32(m.keyEpoch) + PutU32(m.projectionEpoch)
      + PutKind(m.kind) + PutRoot(m.bundleRoot) + PutU32(|m.outputs|) + Concat(PutOutput, m.outputs)
      + PutDigest(m.semantic) + PutDigest(m.observable)
  {
    Regrouped(MAGIC, [1], PutDigest(m.actionKey), PutDigest(m.descriptor), PutU32(m.keyEpoch),
      PutU32(m.projectionEpoch), PutKind(m.kind), PutRoot(m.bundleRoot), PutU32(|m.outputs|),
      Concat(PutOutput, m.outputs),
      PutDigest(m.semantic), PutDigest(m.observable));
  }

  lemma MagicText()
    ensures MAGIC == Ascii("RMF1")
  {
  }

  lemma RootLaidOut(root: Option<TypedDigest>)
    requires root.Some? ==> |root.value.domain| < 0x1_0000
    ensures PutRoot(root) == RootLayout(root)
  {
    if root.Some? { DigestLaidOut(root.value); }
  }

  /** The whole manifest, field by field. */
  lemma ManifestLayout(m: Manifest)
    requires WellTyped(m)
    ensures EncodeListed(m) ==
      Ascii("RMF1") + [1] + DigestLayout(m.actionKey) + DigestLayout(m.descriptor)
      + BE.Encode(m.keyEpoch, 4) + BE.Encode(m.projectionEpoch, 4) + [if m.kind == Success then 0 else 1]
      + RootLayout(m.bundleRoot) + BE.Encode(|m.outputs|, 4) + Concat(PutOutput, m.outputs)
      + DigestLayout(m.semantic) + DigestLayout(m.observable)
  {
    ManifestFlat(m);
    MagicText();
    DigestLaidOut(m.actionKey);
    DigestLaidOut(m.descriptor);
    DigestLaidOut(m.semantic);
    DigestLaidOut(m.observable);
    RootLaidOut(m.bundleRoot);
    LengthLaidOut(m.keyEpoch);
    LengthLaidOut(m.projectionEpoch);
    LengthLaidOut(|m.outputs|);
  }

  lemma Regrouped(a: Bytes, b: Bytes, c: Bytes, d: Bytes, e: Bytes, f: Bytes, g: Bytes, h: Bytes, i: Bytes, j: Bytes,
                  k: Bytes, l: Bytes)
    ensures a + (b + (c + (d + (e + (f + (g + (h + ((i + j) + (k + l))))))))) ==
      a + b + c + d + e + f + g + h + i + j + k + l
  {
    assert (i + j) + (k + l) == i + j + k + l;
    Rebracket(h, i + j + k, l);
    Rebracket(h, i + j, k);
    Rebracket(h, i, j);
    Rebracket4(a, b, c, d, e, f, g, h + i + j + k + l);
    Append5(a + b + c + d + e + f + g, h, i, j, k, l);
  }

  lemma Rebracket4(a: Bytes, b: Bytes, c: Bytes, d: Bytes, e: Bytes, f: Bytes, g: Bytes, t: Bytes)
    ensures a + (b + (c + (d + (e + (f + (g + t)))))) == a + b + c + d + e + f + g + t
  {
    Rebracket(f, g, t);
    Rebracket(e, f, g + t);
    Rebracket(e + f, g, t);
  }

  lemma Append5(x: Bytes, h: Bytes, i: Bytes, j: Bytes, k: Bytes, l: Bytes)
    ensures x + (h + i + j + k + l) == x + h + i + j + k + l
  {
  }

  // ---------------------------------------------------------------- the order of outputs

  /** Equal, a proper prefix, or smaller at the first byte that differs. */
  ghost predicate NoLaterPath(a: Bytes, b: Bytes) {
    || a == b
    || exists k :: 0 <= k <= |a| && k < |b| && a[..k] == b[..k] && (k == |a| || a[k] < b[k])
  }

  /** In an encoded manifest outputs stand by role, in the written-out order of roles, and within a
      role by path, bytewise; nothing is lost or added, and no other field changes. */
  lemma OutputsInOrder(m: Manifest, i: nat, j: nat)
    requires i < j < |m.outputs|
    ensures var c := Canonical(m);
      && c == m.(outputs := c.outputs) && multiset(c.outputs) == multiset(m.outputs) && |c.outputs| == |m.outputs|
      && exists s: nat, t: nat ::
           && s < |ROLES| && t < |ROLES| && ROLES[s] == c.outputs[i].role && ROLES[t] == c.outputs[j].role
           && (s < t || (s == t && NoLaterPath(c.outputs[i].path, c.outputs[j].path)))
  {
    var os := Sorting.Sort(m.outputs, OutputOrder);
    OutputOrderFacts();
    Sorting.SortSorted(m.outputs, OutputOrder);
    Sorting.SameElements(m.outputs, os);
    assert OutputOrder(os[i], os[j]);
    RoleTags(os[i].role);
    RoleTags(os[j].role);
    if os[i].role == os[j].role { PathNoLater(os[i].path, os[j].path); }
  }

  lemma PathNoLater(a: Bytes, b: Bytes)
    requires Lex.AtMost(a, b)
    ensures NoLaterPath(a, b)
  {
    Lex.BelowMeans(a, b);
  }
}
