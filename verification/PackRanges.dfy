/** `validate_pack_ranges`: members of a pack must be non-empty, in bounds and disjoint. */
module PackRanges {
  import opened Prelude
  import opened Sorting
  import opened Ranges

  datatype RangeError = OverlapFound | OutOfBounds | EmptyMember

  predicate ByOffset(r: Range, q: Range) { r.offset <= q.offset }

  lemma OffsetOrder()
    ensures Preorder(ByOffset)
  {
  }

  /** Two disjoint members, the first starting no later: it also ends no later than the second starts. */
  lemma ApartInOrder(members: seq<Range>, total: nat, x: Range, y: Range)
    requires Disjoint(members, total) && x in members && y in members && x != y && ByOffset(x, y)
    ensures End(x) <= y.offset
  {
    var i :| 0 <= i < |members| && members[i] == x;
    var j :| 0 <= j < |members| && members[j] == y;
    assert !Overlap(x, y) || !Overlap(y, x);
  }

  /** Sorting by offset alone puts disjoint members in order. */
  lemma DisjointInOrder(members: seq<Range>, total: nat)
    requires Disjoint(members, total)
    ensures Ordered(Sort(members, ByOffset), total)
  {
    var s := Sort(members, ByOffset);
    OffsetOrder();
    SortSorted(members, ByOffset);
    DisjointDistinct(members, total);
    SameElements(members, s);
    forall i | 0 <= i < |s| ensures s[i].length > 0 && End(s[i]) <= total {
      assert s[i] in members;
    }
    forall i, j | 0 <= i < j < |s| ensures End(s[i]) <= s[j].offset {
      assert ByOffset(s[i], s[j]) && s[i] in members && s[j] in members;
      ApartInOrder(members, total, s[i], s[j]);
    }
  }

  lemma InOrderDisjoint(members: seq<Range>, total: nat)
    requires Ordered(Sort(members, ByOffset), total)
    ensures Disjoint(members, total)
  {
    var s := Sort(members, ByOffset);
    assert Distinct(s) by {
      forall i, j | 0 <= i < j < |s| ensures s[i] != s[j] {
        assert End(s[i]) <= s[j].offset;
      }
    }
    SameElements(s, members);
    forall i | 0 <= i < |members| ensures members[i].length > 0 && End(members[i]) <= total {
      assert members[i] in s;
    }
    forall i, j | 0 <= i < j < |members| ensures !Overlap(members[i], members[j]) {
      assert members[i] in s && members[j] in s && members[i] != members[j];
    }
  }

  /** Two members, at different places in the list, share a byte. */
  ghost predicate SomeOverlap(members: seq<Range>) {
    exists i, j :: 0 <= i < j < |members| && Overlap(members[i], members[j])
  }

  lemma {:induction false} TwoPlaces(s: seq<Range>, x: Range) returns (i: nat, j: nat)
    requires multiset(s)[x] >= 2
    ensures i < j < |s| && s[i] == x && s[j] == x
  {
    assert s == [s[0]] + s[1..];
    if s[0] == x {
      assert x in multiset(s[1..]);
      var k :| 0 <= k < |s[1..]| && s[1..][k] == x;
      i, j := 0, k + 1;
    } else {
      i, j := TwoPlaces(s[1..], x);
      i, j := i + 1, j + 1;
    }
  }

  /** Overlap does not depend on the order the members are listed in. */
  lemma OverlapAnyOrder(a: seq<Range>, b: seq<Range>)
    requires multiset(a) == multiset(b) && SomeOverlap(a)
    ensures SomeOverlap(b)
  {
    var i, j :| 0 <= i < j < |a| && Overlap(a[i], a[j]);
    if a[i] == a[j] {
      TwiceCounts(a, i, j);
      var k, l := TwoPlaces(b, a[i]);
    } else {
      assert a[i] in multiset(b) && a[j] in multiset(b);
      var k :| 0 <= k < |b| && b[k] == a[i];
      var l :| 0 <= l < |b| && b[l] == a[j];
      assert Overlap(b[k], b[l]) && Overlap(b[l], b[k]);
    }
  }

  /** Neighbours in offset order, the first reaching past the start of the second. */
  lemma NeighboursOverlap(sorted: seq<Range>, i: nat)
    requires SortedBy(sorted, ByOffset) && 0 < i < |sorted|
    requires sorted[i].length > 0 && sorted[i].offset < End(sorted[i-1])
    ensures SomeOverlap(sorted)
  {
    assert ByOffset(sorted[i-1], sorted[i]);
    assert Overlap(sorted[i-1], sorted[i]);
  }

  /** What stops an ordered prefix from growing stops the whole list from being ordered. */
  lemma NotOrdered(sorted: seq<Range>, i: nat, total: nat)
    requires i < |sorted|
    requires sorted[i].length == 0 || End(sorted[i]) > total || (i > 0 && sorted[i].offset < End(sorted[i-1]))
    ensures !Ordered(sorted, total)
  {
  }

  lemma OrderedNext(sorted: seq<Range>, i: nat, total: nat)
    requires i < |sorted| && Ordered(sorted[..i], total) && Cursor(sorted[..i]) <= sorted[i].offset
    requires sorted[i].length > 0 && End(sorted[i]) <= total
    ensures Ordered(sorted[..i+1], total) && Cursor(sorted[..i+1]) == End(sorted[i])
  {
    assert sorted[..i+1] == sorted[..i] + [sorted[i]];
    OrderedBelowCursor(sorted[..i], total);
  }

  /** The loop over members in offset order. */
  method CheckInOrder(sorted: seq<Range>, packLen: u64) returns (r: Result<(), RangeError>)
    requires SortedBy(sorted, ByOffset)
    ensures r.Ok? <==> Ordered(sorted, packLen)
    ensures r == Err(EmptyMember) ==> exists m :: m in sorted && m.length == 0
    ensures r == Err(OutOfBounds) ==> exists m :: m in sorted && End(m) > packLen
    ensures r == Err(OverlapFound) ==> SomeOverlap(sorted)
  {
    var previousEnd := 0;
    for i := 0 to |sorted|
      invariant Ordered(sorted[..i], packLen) && previousEnd == Cursor(sorted[..i])
    {
      var m := sorted[i];
      if m.length == 0 {
        NotOrdered(sorted, i, packLen);
        return Err(EmptyMember);
      }
      if m.offset + m.length >= U64_LIMIT {
        NotOrdered(sorted, i, packLen);
        return Err(OutOfBounds);
      }
      var end := m.offset + m.length;
      if end > packLen {
        NotOrdered(sorted, i, packLen);
        return Err(OutOfBounds);
      }
      if m.offset < previousEnd {
        assert i > 0 && previousEnd == End(sorted[i-1]);
        NotOrdered(sorted, i, packLen);
        NeighboursOverlap(sorted, i);
        return Err(OverlapFound);
      }
      OrderedNext(sorted, i, packLen);
      previousEnd := end;
    }
    assert sorted[..|sorted|] == sorted;
    return Ok(());
  }

  /** Accepts exactly the member lists that are non-empty ranges, in bounds and pairwise
      disjoint, in any order; offset plus length past the word size is out of bounds. */
  method ValidatePackRanges(members: seq<Range>, packLen: u64) returns (r: Result<(), RangeError>)
    ensures r.Ok? <==> Disjoint(members, packLen)
    ensures r == Err(EmptyMember) ==> exists m :: m in members && m.length == 0
    ensures r == Err(OutOfBounds) ==> exists m :: m in members && End(m) > packLen
    ensures r == Err(OverlapFound) ==> SomeOverlap(members)
  {
    var sorted := Sort(members, ByOffset);
    OffsetOrder();
    SortSorted(members, ByOffset);
    SameElements(members, sorted);
    r := CheckInOrder(sorted, packLen);
    if r == Err(OverlapFound) {
      OverlapAnyOrder(sorted, members);
    }
    if r.Ok? {
      InOrderDisjoint(members, packLen);
    } else if Disjoint(members, packLen) {
      DisjointInOrder(members, packLen);
    }
  }
}
