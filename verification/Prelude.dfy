/** Shared vocabulary: optional values, results, machine words and byte strings. */
module Prelude {

  datatype Option<+T> = None | Some(value: T)

  datatype Result<+T, +E> = Ok(value: T) | Err(error: E)

  const U16_LIMIT: int := 0x1_0000
  const U32_LIMIT: int := 0x1_0000_0000
  const U64_LIMIT: int := 0x1_0000_0000_0000_0000

  /** SQLite integers are signed: a u64 at or above this bound is refused at write. */
  const I64_LIMIT: int := 0x8000_0000_0000_0000

  type u64 = x: nat | x < 0x1_0000_0000_0000_0000
  type byte = x: nat | x < 256
  type Bytes = seq<byte>

  /** The bytes of ASCII text; a question mark stands for anything else. */
  function Ascii(s: string): (b: Bytes)
    ensures |b| == |s| && forall i :: 0 <= i < |b| ==> b[i] < 128
  {
    seq(|s|, i requires 0 <= i < |s| => if s[i] <= '~' then s[i] as int else 63)
  }

  /** What an action's result says of it. */
  datatype ResultKind = Success | DeterministicFailure

  /** u64::saturating_add. */
  function SaturatingAdd(x: u64, y: u64): (r: u64)
    ensures x + y < U64_LIMIT ==> r == x + y
    ensures x <= r && y <= r
  {
    if x + y < U64_LIMIT then x + y else 0xFFFF_FFFF_FFFF_FFFF
  }

  /** No value occurs twice. */
  ghost predicate Distinct<T>(s: seq<T>) {
    forall i, j :: 0 <= i < j < |s| ==> s[i] != s[j]
  }

  /** Every binding of `m` is one of `n`. */
  ghost predicate Keeps<K, V>(m: map<K, V>, n: map<K, V>) {
    forall k :: k in m ==> k in n && n[k] == m[k]
  }

  ghost function Elements<T>(s: seq<T>): set<T> {
    set x | x in s
  }

  lemma ElementsConcat<T>(a: seq<T>, b: seq<T>)
    ensures Elements(a + b) == Elements(a) + Elements(b)
  {
  }

  lemma ElementsSplitLast<T>(s: seq<T>)
    requires s != []
    ensures Elements(s) == Elements(s[..|s|-1]) + {s[|s|-1]}
  {
    assert s == s[..|s|-1] + [s[|s|-1]];
  }

  function Map<A, B>(f: A -> B, s: seq<A>): (r: seq<B>)
    ensures |r| == |s|
    ensures forall i :: 0 <= i < |s| ==> r[i] == f(s[i])
  {
    if s == [] then [] else [f(s[0])] + Map(f, s[1..])
  }
}

/** Rust's stable slice sort, and the facts that pin its result down. */
module Sorting {
  import opened Prelude

  ghost predicate Reflexive<T(!new)>(le: (T, T) -> bool) {
    forall x :: le(x, x)
  }

  ghost predicate Transitive<T(!new)>(le: (T, T) -> bool) {
    forall x, y, z :: le(x, y) && le(y, z) ==> le(x, z)
  }

  ghost predicate Total<T(!new)>(le: (T, T) -> bool) {
    forall x, y :: le(x, y) || le(y, x)
  }

  /** A comparator as `sort_by` expects it. */
  ghost predicate Preorder<T(!new)>(le: (T, T) -> bool) {
    Transitive(le) && Total(le)
  }

  ghost predicate SortedBy<T>(s: seq<T>, le: (T, T) -> bool) {
    forall i, j :: 0 <= i < j < |s| ==> le(s[i], s[j])
  }

  /** Among these elements the order ties only equal values. */
  ghost predicate AntisymmetricOn<T>(s: seq<T>, le: (T, T) -> bool) {
    forall x, y :: x in s && y in s && le(x, y) && le(y, x) ==> x == y
  }

  function Insert<T>(x: T, s: seq<T>, le: (T, T) -> bool): (r: seq<T>)
    ensures multiset(r) == multiset{x} + multiset(s)
  {
    if s == [] then [x]
    else if le(x, s[0]) then [x] + s
    else
      assert s == [s[0]] + s[1..];
      [s[0]] + Insert(x, s[1..], le)
  }

  /** Stable sort: a tie keeps the earlier element first. */
  function Sort<T>(s: seq<T>, le: (T, T) -> bool): (r: seq<T>)
    ensures multiset(r) == multiset(s)
  {
    if s == [] then []
    else
      assert s == [s[0]] + s[1..];
      Insert(s[0], Sort(s[1..], le), le)
  }

  lemma SameElements<T>(s: seq<T>, r: seq<T>)
    requires multiset(s) == multiset(r)
    ensures |s| == |r|
    ensures forall x :: x in s <==> x in r
    ensures Distinct(s) ==> Distinct(r)
  {
    assert |multiset(s)| == |multiset(r)|;
    forall x ensures x in s <==> x in r {
      assert x in multiset(s) <==> x in multiset(r);
    }
    if Distinct(s) {
      forall i, j | 0 <= i < j < |r| ensures r[i] != r[j] {
        if r[i] == r[j] {
          TwiceCounts(r, i, j);
          OnceCounts(s, r[i]);
        }
      }
    }
  }

  lemma TwiceCounts<T>(s: seq<T>, i: nat, j: nat)
    requires i < j < |s| && s[i] == s[j]
    ensures multiset(s)[s[i]] >= 2
  {
    assert s == s[..j] + s[j..];
    assert s[i] in s[..j] && s[j..] == [s[j]] + s[j+1..];
    assert s[i] in multiset(s[..j]) && s[i] in multiset(s[j..]);
  }

  lemma OnceCounts<T>(s: seq<T>, x: T)
    requires Distinct(s)
    ensures multiset(s)[x] <= 1
  {
    if s != [] {
      OnceCounts(s[1..], x);
      assert s == [s[0]] + s[1..];
      if x == s[0] {
        assert x !in s[1..];
        assert x !in multiset(s[1..]);
      }
    }
  }

  lemma {:induction false} InsertSorted<T(!new)>(x: T, s: seq<T>, le: (T, T) -> bool)
    requires Preorder(le) && SortedBy(s, le)
    ensures SortedBy(Insert(x, s, le), le)
  {
    if s != [] && !le(x, s[0]) {
      InsertSorted(x, s[1..], le);
      var tail := Insert(x, s[1..], le);
      forall y | y in tail ensures le(s[0], y) {
        assert y in multiset(tail);
        assert y == x || y in s[1..];
      }
    }
  }

  lemma {:induction false} SortSorted<T(!new)>(s: seq<T>, le: (T, T) -> bool)
    requires Preorder(le)
    ensures SortedBy(Sort(s, le), le)
  {
    if s != [] {
      SortSorted(s[1..], le);
      InsertSorted(s[0], Sort(s[1..], le), le);
    }
  }

  /** Of two tied values, the one inserted last comes first: the sort is stable, so the order of
      tied values shows in its result. */
  lemma {:induction false} InsertTied<T(!new)>(x: T, y: T, s: seq<T>, le: (T, T) -> bool)
    requires Preorder(le) && le(x, y) && le(y, x) && x != y
    ensures Insert(x, Insert(y, s, le), le) != Insert(y, Insert(x, s, le), le)
  {
    assert s != [] ==> (le(x, s[0]) <==> le(y, s[0]));
    if s == [] || le(x, s[0]) {
      assert Insert(y, s, le) == [y] + s && Insert(x, s, le) == [x] + s;
      assert Insert(x, [y] + s, le)[0] == x && Insert(y, [x] + s, le)[0] == y;
    } else {
      InsertTied(x, y, s[1..], le);
      var xy, yx := Insert(x, Insert(y, s[1..], le), le), Insert(y, Insert(x, s[1..], le), le);
      assert Insert(x, Insert(y, s, le), le)[1..] == xy;
      assert Insert(y, Insert(x, s, le), le)[1..] == yx;
    }
  }

  lemma SortTwo<T>(x: T, y: T, s: seq<T>, le: (T, T) -> bool)
    ensures Sort([x, y] + s, le) == Insert(x, Insert(y, Sort(s, le), le), le)
    ensures multiset([x, y] + s) == multiset(s) + multiset{x, y}
  {
    assert ([x, y] + s)[1..] == [y] + s && ([y] + s)[1..] == s;
  }

  lemma SortedFirst<T(!new)>(a: seq<T>, b: seq<T>, le: (T, T) -> bool)
    requires a != [] && b != []
    requires SortedBy(a, le) && SortedBy(b, le)
    requires a[0] in b && b[0] in a
    requires AntisymmetricOn(a, le)
    ensures a[0] == b[0]
  {
  }

  lemma TailCounts<T>(s: seq<T>)
    requires s != []
    ensures multiset(s[1..]) == multiset(s) - multiset{s[0]}
  {
    assert s == [s[0]] + s[1..];
  }

  /** Sorted rearrangements of the same values are equal when ties are. */
  lemma {:induction false} SortedUnique<T(!new)>(a: seq<T>, b: seq<T>, le: (T, T) -> bool)
    requires SortedBy(a, le) && SortedBy(b, le) && multiset(a) == multiset(b)
    requires AntisymmetricOn(a, le)
    ensures a == b
  {
    SameElements(a, b);
    if a != [] {
      SortedFirst(a, b, le);
      TailCounts(a);
      TailCounts(b);
      SortedUnique(a[1..], b[1..], le);
    }
  }

  /** Sorting is a function of the multiset when ties are equal values. */
  lemma SortCanonical<T(!new)>(a: seq<T>, b: seq<T>, le: (T, T) -> bool)
    requires Preorder(le) && AntisymmetricOn(a, le)
    requires multiset(a) == multiset(b)
    ensures Sort(a, le) == Sort(b, le)
  {
    SortSorted(a, le);
    SortSorted(b, le);
    SameElements(a, Sort(a, le));
    SortedUnique(Sort(a, le), Sort(b, le), le);
  }
}

/** Lexicographic order on sequences, as `Ord` gives it for slices and strings. */
module Lexicographic {
  import opened Prelude
  import opened Sorting

  predicate Below(a: seq<nat>, b: seq<nat>) {
    if b == [] then false
    else if a == [] then true
    else if a[0] != b[0] then a[0] < b[0]
    else Below(a[1..], b[1..])
  }

  predicate AtMost(a: seq<nat>, b: seq<nat>) {
    a == b || Below(a, b)
  }

  lemma BelowIrreflexive(a: seq<nat>)
    ensures !Below(a, a)
  {
  }

  lemma BelowTrichotomy(a: seq<nat>, b: seq<nat>)
    ensures a == b || Below(a, b) || Below(b, a)
    ensures !(Below(a, b) && Below(b, a))
  {
    if a != [] && b != [] && a[0] == b[0] {
      BelowTrichotomy(a[1..], b[1..]);
      assert a == [a[0]] + a[1..] && b == [b[0]] + b[1..];
    }
  }

  lemma BelowTransitive(a: seq<nat>, b: seq<nat>, c: seq<nat>)
    requires Below(a, b) && Below(b, c)
    ensures Below(a, c)
  {
  }

  /** The first difference decides, the smaller value first; a proper prefix comes first. */
  lemma BelowMeans(a: seq<nat>, b: seq<nat>)
    ensures Below(a, b) <==>
      exists k :: 0 <= k <= |a| && k < |b| && a[..k] == b[..k] && (k == |a| || a[k] < b[k])
  {
    if Below(a, b) {
      var k := FirstDifference(a, b);
    } else if k :| 0 <= k <= |a| && k < |b| && a[..k] == b[..k] && (k == |a| || a[k] < b[k]) {
      DifferenceDecides(a, b, k);
    }
  }

  lemma {:induction false} FirstDifference(a: seq<nat>, b: seq<nat>) returns (k: nat)
    requires Below(a, b)
    ensures k <= |a| && k < |b| && a[..k] == b[..k] && (k == |a| || a[k] < b[k])
  {
    if a == [] || a[0] != b[0] {
      k := 0;
    } else {
      var rest := FirstDifference(a[1..], b[1..]);
      k := rest + 1;
      assert a[..k] == [a[0]] + a[1..][..rest] && b[..k] == [b[0]] + b[1..][..rest];
    }
  }

  lemma {:induction false} DifferenceDecides(a: seq<nat>, b: seq<nat>, k: nat)
    requires k <= |a| && k < |b| && a[..k] == b[..k] && (k == |a| || a[k] < b[k])
    ensures Below(a, b)
  {
    if k > 0 {
      assert a[0] == a[..k][0] == b[..k][0] == b[0];
      assert a[1..][..k-1] == a[..k][1..] && b[1..][..k-1] == b[..k][1..];
      DifferenceDecides(a[1..], b[1..], k - 1);
    }
  }

  lemma AtMostOrder()
    ensures Preorder(AtMost) && Reflexive(AtMost)
    ensures forall a, b :: AtMost(a, b) && AtMost(b, a) ==> a == b
  {
    forall a, b ensures AtMost(a, b) || AtMost(b, a) {
      BelowTrichotomy(a, b);
    }
    forall a, b, c | AtMost(a, b) && AtMost(b, c) ensures AtMost(a, c) {
      if a != b && b != c { BelowTransitive(a, b, c); }
    }
    forall a, b | AtMost(a, b) && AtMost(b, a) ensures a == b {
      BelowTrichotomy(a, b);
    }
  }
}
