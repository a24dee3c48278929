/** The one canonical order of a manifest's outputs, and what it makes of the encoding. */
module ManifestCanonical {
  import opened Prelude
  import opened Sorting
  import opened Parsing
  import opened ManifestCodec
  import Lex = Lexicographic

  /** Role tag first, then path. */
  predicate OutputOrder(a: Output, b: Output) {
    RoleTagOf(a.role) < RoleTagOf(b.role) || (a.role == b.role && Lex.AtMost(a.path, b.path))
  }

  function Canonical(m: Manifest): Manifest {
    m.(outputs := Sort(m.outputs, OutputOrder))
  }

  /** `encode_manifest_v1`. */
  function Encode(m: Manifest): Bytes {
    EncodeListed(Canonical(m))
  }

  lemma OutputOrderFacts()
    ensures Preorder(OutputOrder)
  {
    Lex.AtMostOrder();
    forall a, b ensures OutputOrder(a, b) || OutputOrder(b, a) {
      assert Lex.AtMost(a.path, b.path) || Lex.AtMost(b.path, a.path);
    }
    forall a, b, c | OutputOrder(a, b) && OutputOrder(b, c) ensures OutputOrder(a, c) {
      OutputOrderTransitive(a, b, c);
    }
  }

  lemma OutputOrderTransitive(a: Output, b: Output, c: Output)
    requires OutputOrder(a, b) && OutputOrder(b, c)
    ensures OutputOrder(a, c)
  {
    if a.role == b.role == c.role {
      Lex.AtMostOrder();
      assert Lex.AtMost(a.path, b.path) && Lex.AtMost(b.path, c.path);
    }
  }

  /** The canonical order ties exactly outputs that share a role and a path. */
  lemma TieIff(a: Output, b: Output)
    ensures OutputOrder(a, b) && OutputOrder(b, a) <==> a.role == b.role && a.path == b.path
  {
    Lex.BelowTrichotomy(a.path, b.path);
  }

  lemma CanonicalWellTyped(m: Manifest)
    ensures WellTyped(Canonical(m)) <==> WellTyped(m)
  {
    var os, sorted := m.outputs, Sort(m.outputs, OutputOrder);
    SameElements(os, sorted);
    assert AllOk(OutputOk, os) <==> AllOk(OutputOk, sorted) by {
      assert AllOk(OutputOk, os) <==> forall o :: o in os ==> OutputOk(o);
      assert AllOk(OutputOk, sorted) <==> forall o :: o in sorted ==> OutputOk(o);
    }
  }

  /** Round trip: decoding the encoding gives the manifest back in canonical order exactly when
      the manifest is well typed and its lengths fit their fields. */
  lemma RoundTrip(m: Manifest)
    ensures Decode(Encode(m)) == Ok(Canonical(m)) <==> WellTyped(m)
  {
    DecodeExact(Encode(m), Canonical(m));
    CanonicalWellTyped(m);
  }

  lemma {:induction false} SortSortedIdentity(s: seq<Output>)
    requires SortedBy(s, OutputOrder)
    ensures Sort(s, OutputOrder) == s
  {
    if s != [] {
      assert s == [s[0]] + s[1..];
      SortSortedIdentity(s[1..]);
    }
  }

  /** Encoding is stable: what was decoded from an encoding encodes to the same bytes. */
  lemma ReencodeStable(m: Manifest)
    requires WellTyped(m)
    ensures Decode(Encode(m)).Ok? && Encode(Decode(Encode(m)).value) == Encode(m)
  {
    RoundTrip(m);
    OutputOrderFacts();
    SortSorted(m.outputs, OutputOrder);
    SortSortedIdentity(Sort(m.outputs, OutputOrder));
  }

  // ---------------------------------------------------------------- order independence

  /** No two different outputs share a role and a path. */
  ghost predicate Distinguishable(os: seq<Output>) {
    forall a, b :: a in os && b in os && a.role == b.role && a.path == b.path ==> a == b
  }

  ghost predicate OrderFree(m: Manifest) {
    forall os :: multiset(os) == multiset(m.outputs) ==> Encode(m.(outputs := os)) == Encode(m)
  }

  lemma DistinguishableOrderFree(m: Manifest)
    requires Distinguishable(m.outputs)
    ensures OrderFree(m)
  {
    OutputOrderFacts();
    forall a, b | a in m.outputs && b in m.outputs && OutputOrder(a, b) && OutputOrder(b, a) ensures a == b {
      TieIff(a, b);
    }
    forall os | multiset(os) == multiset(m.outputs) ensures Encode(m.(outputs := os)) == Encode(m) {
      SortCanonical(m.outputs, os, OutputOrder);
    }
  }

  lemma EncodeInjective(a: Manifest, b: Manifest)
    requires WellTyped(a) && Encode(a) == Encode(b)
    requires WellTyped(b)
    ensures Canonical(a) == Canonical(b)
  {
    RoundTrip(a);
    RoundTrip(b);
  }

  /** Two listings of the same outputs that differ only in which of two tied outputs comes first. */
  lemma SwapTied(os: seq<Output>, a: Output, b: Output) returns (ab: seq<Output>, ba: seq<Output>)
    requires a in os && b in os && a != b && a.role == b.role && a.path == b.path
    ensures multiset(ab) == multiset(ba) == multiset(os)
    ensures Sort(ab, OutputOrder) != Sort(ba, OutputOrder)
  {
    var rest := LeftAfter(os, a, b);
    ab, ba := [a, b] + rest, [b, a] + rest;
    TieIff(a, b);
    OutputOrderFacts();
    SortTwo(a, b, rest, OutputOrder);
    SortTwo(b, a, rest, OutputOrder);
    InsertTied(a, b, Sort(rest, OutputOrder), OutputOrder);
  }

  lemma LeftAfter(os: seq<Output>, a: Output, b: Output) returns (rest: seq<Output>)
    requires a in os && b in os && a != b
    ensures multiset(rest) + multiset{a, b} == multiset(os)
  {
    var i :| 0 <= i < |os| && os[i] == a;
    var less := os[..i] + os[i+1..];
    RemoveCounts(os, i);
    assert b in multiset(os) && b in multiset(less);
    var j :| 0 <= j < |less| && less[j] == b;
    rest := less[..j] + less[j+1..];
    RemoveCounts(less, j);
  }

  lemma RemoveCounts(s: seq<Output>, i: nat)
    requires i < |s|
    ensures multiset(s[..i] + s[i+1..]) + multiset{s[i]} == multiset(s)
  {
    assert s == s[..i] + ([s[i]] + s[i+1..]);
  }

  /** The encoding of a well-typed manifest is independent of the order its outputs are listed in
      exactly when no two different outputs share a role and a path. */
  lemma OrderFreeIff(m: Manifest)
    requires WellTyped(m)
    ensures OrderFree(m) <==> Distinguishable(m.outputs)
  {
    if Distinguishable(m.outputs) {
      DistinguishableOrderFree(m);
    } else {
      var a, b :| a in m.outputs && b in m.outputs && a.role == b.role && a.path == b.path && a != b;
      var ab, ba := SwapTied(m.outputs, a, b);
      var x, y := m.(outputs := ab), m.(outputs := ba);
      PermutedWellTyped(m, ab);
      PermutedWellTyped(m, ba);
      if Encode(x) == Encode(y) { EncodeInjective(x, y); }
      assert Encode(m.(outputs := ab)) != Encode(m.(outputs := ba));
    }
  }

  lemma PermutedWellTyped(m: Manifest, os: seq<Output>)
    requires WellTyped(m) && multiset(os) == multiset(m.outputs)
    ensures WellTyped(m.(outputs := os))
  {
    SameElements(m.outputs, os);
    assert forall o :: o in os ==> OutputOk(o);
  }
}
