/** Byte ranges of a sparse transfer: merging what was received and listing what is missing. */
module Ranges {
  import opened Prelude
  import opened Sorting

  datatype Range = Range(offset: nat, length: nat)

  function End(r: Range): nat { r.offset + r.length }

  ghost predicate Holds(r: Range, b: nat) { r.offset <= b < End(r) }

  /** Some range of the list holds byte `b`. */
  ghost predicate Covered(rs: seq<Range>, b: nat) {
    exists i :: 0 <= i < |rs| && Holds(rs[i], b)
  }

  predicate Overlap(r: Range, q: Range) {
    r.offset < End(q) && q.offset < End(r)
  }

  /** Non-empty, within the object, and pairwise disjoint, in any order. */
  ghost predicate Disjoint(rs: seq<Range>, total: nat) {
    && (forall i :: 0 <= i < |rs| ==> rs[i].length > 0 && End(rs[i]) <= total)
    && (forall i, j :: 0 <= i < j < |rs| ==> !Overlap(rs[i], rs[j]))
  }

  /** Disjoint and in increasing order. */
  ghost predicate Ordered(rs: seq<Range>, total: nat) {
    && (forall i :: 0 <= i < |rs| ==> rs[i].length > 0 && End(rs[i]) <= total)
    && (forall i, j :: 0 <= i < j < |rs| ==> End(rs[i]) <= rs[j].offset)
  }

  /** No two neighbours touch, so no list of fewer ranges covers the same bytes. */
  ghost predicate Apart(rs: seq<Range>) {
    forall i :: 0 <= i < |rs| - 1 ==> End(rs[i]) < rs[i+1].offset
  }

  predicate StartsNoLater(r: Range, q: Range) {
    r.offset < q.offset || (r.offset == q.offset && r.length <= q.length)
  }

  // ---------------------------------------------------------------- merging

  /** Where the scan stands after the last range of a list. */
  function Cursor(m: seq<Range>): nat {
    if m == [] then 0 else End(m[|m|-1])
  }

  function Absorb(merged: seq<Range>, r: Range): seq<Range> {
    if merged != [] && End(merged[|merged|-1]) == r.offset
    then merged[..|merged|-1] + [Range(merged[|merged|-1].offset, merged[|merged|-1].length + r.length)]
    else merged + [r]
  }

  function Merge(sorted: seq<Range>): seq<Range> {
    if sorted == [] then [] else Absorb(Merge(sorted[..|sorted|-1]), sorted[|sorted|-1])
  }

  function Received(recorded: seq<Range>): seq<Range> {
    Merge(Sort(recorded, StartsNoLater))
  }

  lemma StartOrder()
    ensures Preorder(StartsNoLater)
  {
  }

  lemma DisjointDistinct(recorded: seq<Range>, total: nat)
    requires Disjoint(recorded, total)
    ensures Distinct(recorded)
  {
    forall i, j | 0 <= i < j < |recorded| ensures recorded[i] != recorded[j] {
      assert !Overlap(recorded[i], recorded[j]);
    }
  }

  lemma DisjointSorts(recorded: seq<Range>, total: nat)
    requires Disjoint(recorded, total)
    ensures Ordered(Sort(recorded, StartsNoLater), total)
    ensures forall b :: Covered(Sort(recorded, StartsNoLater), b) <==> Covered(recorded, b)
  {
    var s := Sort(recorded, StartsNoLater);
    StartOrder();
    SortSorted(recorded, StartsNoLater);
    DisjointDistinct(recorded, total);
    SameElements(recorded, s);
    forall i | 0 <= i < |s| ensures s[i].length > 0 && End(s[i]) <= total {
      assert s[i] in recorded;
    }
    forall i, j | 0 <= i < j < |s| ensures End(s[i]) <= s[j].offset {
      assert StartsNoLater(s[i], s[j]) && s[i] in recorded && s[j] in recorded;
    }
    CoveredSame(recorded, s);
  }

  lemma CoveredSame(a: seq<Range>, b: seq<Range>)
    requires forall r :: r in a <==> r in b
    ensures forall x :: Covered(a, x) <==> Covered(b, x)
  {
    forall x ensures Covered(a, x) <==> Covered(b, x) {
      if Covered(a, x) {
        var i :| 0 <= i < |a| && Holds(a[i], x);
        assert a[i] in b;
      }
      if Covered(b, x) {
        var i :| 0 <= i < |b| && Holds(b[i], x);
        assert b[i] in a;
      }
    }
  }

  lemma CoveredAppend(rs: seq<Range>, r: Range, b: nat)
    ensures Covered(rs + [r], b) <==> Covered(rs, b) || Holds(r, b)
  {
    if Covered(rs, b) {
      var i :| 0 <= i < |rs| && Holds(rs[i], b);
      assert Holds((rs + [r])[i], b);
    }
    if Holds(r, b) {
      assert Holds((rs + [r])[|rs|], b);
    }
  }

  lemma AbsorbCovers(merged: seq<Range>, r: Range, b: nat)
    ensures Covered(Absorb(merged, r), b) <==> Covered(merged, b) || Holds(r, b)
  {
    if merged != [] && End(merged[|merged|-1]) == r.offset {
      var init, last := merged[..|merged|-1], merged[|merged|-1];
      assert merged == init + [last];
      CoveredAppend(init, last, b);
      CoveredAppend(init, Range(last.offset, last.length + r.length), b);
    } else {
      CoveredAppend(merged, r, b);
    }
  }

  lemma {:induction false} MergeCovers(sorted: seq<Range>, b: nat)
    ensures Covered(Merge(sorted), b) <==> Covered(sorted, b)
  {
    if sorted != [] {
      var init, r := sorted[..|sorted|-1], sorted[|sorted|-1];
      MergeCovers(init, b);
      AbsorbCovers(Merge(init), r, b);
      CoveredAppend(init, r, b);
      assert sorted == init + [r];
    }
  }

  lemma AbsorbShape(merged: seq<Range>, r: Range, total: nat)
    requires Ordered(merged, total) && Apart(merged)
    requires r.length > 0 && End(r) <= total && Cursor(merged) <= r.offset
    ensures Ordered(Absorb(merged, r), total) && Apart(Absorb(merged, r))
    ensures Cursor(Absorb(merged, r)) == End(r)
  {
  }

  lemma {:induction false} MergeShape(sorted: seq<Range>, total: nat)
    requires Ordered(sorted, total)
    ensures Ordered(Merge(sorted), total) && Apart(Merge(sorted))
    ensures Cursor(Merge(sorted)) == Cursor(sorted)
  {
    if sorted != [] {
      var init := sorted[..|sorted|-1];
      MergeShape(init, total);
      AbsorbShape(Merge(init), sorted[|sorted|-1], total);
    }
  }

  lemma MergeNext(sorted: seq<Range>, i: nat)
    requires i < |sorted|
    ensures Merge(sorted[..i+1]) == Absorb(Merge(sorted[..i]), sorted[i])
  {
    assert sorted[..i+1][..i] == sorted[..i];
  }

  // ---------------------------------------------------------------- gaps

  /** The gap from the cursor to the next received byte, if any. */
  function GapTo(cursor: nat, next: nat): seq<Range> {
    if next > cursor then [Range(cursor, next - cursor)] else []
  }

  function GapsBefore(m: seq<Range>): seq<Range> {
    if m == [] then [] else GapsBefore(m[..|m|-1]) + GapTo(Cursor(m[..|m|-1]), m[|m|-1].offset)
  }

  function Gaps(m: seq<Range>, total: nat): seq<Range> {
    GapsBefore(m) + GapTo(Cursor(m), total)
  }

  function Missing(recorded: seq<Range>, total: nat): seq<Range> {
    Gaps(Received(recorded), total)
  }

  /** Two ordered lists that never hold a byte twice and hold every byte below `bound`. */
  ghost predicate Partition(a: seq<Range>, b: seq<Range>, bound: nat) {
    forall x :: 0 <= x < bound ==> (Covered(a, x) <==> !Covered(b, x))
  }

  lemma NotCoveredAbove(rs: seq<Range>, bound: nat, b: nat)
    requires forall i :: 0 <= i < |rs| ==> End(rs[i]) <= bound
    requires bound <= b
    ensures !Covered(rs, b)
  {
  }

  lemma GapToCovers(g: seq<Range>, cursor: nat, next: nat, x: nat)
    ensures Covered(g + GapTo(cursor, next), x) <==> Covered(g, x) || cursor <= x < next
  {
    if next > cursor {
      CoveredAppend(g, Range(cursor, next - cursor), x);
    } else {
      assert g + [] == g;
    }
  }

  lemma GapToShape(g: seq<Range>, cursor: nat, next: nat)
    requires Ordered(g, cursor) && Apart(g) && (g != [] ==> Cursor(g) < cursor) && cursor <= next
    ensures Ordered(g + GapTo(cursor, next), next) && Apart(g + GapTo(cursor, next))
  {
  }

  lemma OrderedBelowCursor(m: seq<Range>, total: nat)
    requires Ordered(m, total)
    ensures Cursor(m) <= total
    ensures forall i :: 0 <= i < |m| ==> End(m[i]) <= Cursor(m)
  {
  }

  lemma OrderedInit(m: seq<Range>, total: nat)
    requires Ordered(m, total) && Apart(m) && m != []
    ensures Ordered(m[..|m|-1], total) && Apart(m[..|m|-1])
    ensures Cursor(m[..|m|-1]) <= m[|m|-1].offset < Cursor(m)
  {
    var init := m[..|m|-1];
    if init != [] {
      assert init[|init|-1] == m[|m|-2];
    }
  }

  lemma {:induction false} GapsShape(m: seq<Range>, total: nat)
    requires Ordered(m, total) && Apart(m)
    ensures var g := GapsBefore(m); Ordered(g, Cursor(m)) && Apart(g) && (g != [] ==> Cursor(g) < Cursor(m))
  {
    if m != [] {
      OrderedInit(m, total);
      GapsShape(m[..|m|-1], total);
      GapToShape(GapsBefore(m[..|m|-1]), Cursor(m[..|m|-1]), m[|m|-1].offset);
    }
  }

  lemma {:induction false} GapsComplement(m: seq<Range>, total: nat, x: nat)
    requires Ordered(m, total) && Apart(m) && x < Cursor(m)
    ensures Covered(m, x) <==> !Covered(GapsBefore(m), x)
  {
    var init, r := m[..|m|-1], m[|m|-1];
    OrderedInit(m, total);
    assert m == init + [r];
    CoveredAppend(init, r, x);
    GapToCovers(GapsBefore(init), Cursor(init), r.offset, x);
    if x < Cursor(init) {
      GapsComplement(init, total, x);
    } else {
      BeyondCursor(init, total, x);
    }
  }

  lemma BeyondCursor(m: seq<Range>, total: nat, x: nat)
    requires Ordered(m, total) && Apart(m) && Cursor(m) <= x
    ensures !Covered(m, x) && !Covered(GapsBefore(m), x)
  {
    OrderedBelowCursor(m, total);
    NotCoveredAbove(m, Cursor(m), x);
    GapsShape(m, total);
    NotCoveredAbove(GapsBefore(m), Cursor(m), x);
  }

  lemma GapsPartition(m: seq<Range>, total: nat, x: nat)
    requires Ordered(m, total) && Apart(m) && x < total
    ensures Covered(m, x) <==> !Covered(Gaps(m, total), x)
  {
    GapToCovers(GapsBefore(m), Cursor(m), total, x);
    if x < Cursor(m) {
      GapsComplement(m, total, x);
    } else {
      BeyondCursor(m, total, x);
    }
  }

  lemma ReceivedShape(recorded: seq<Range>, total: nat)
    requires Disjoint(recorded, total)
    ensures Ordered(Received(recorded), total) && Apart(Received(recorded))
    ensures forall b :: Covered(Received(recorded), b) <==> Covered(recorded, b)
  {
    DisjointSorts(recorded, total);
    MergeShape(Sort(recorded, StartsNoLater), total);
    forall b: nat ensures Covered(Received(recorded), b) <==> Covered(recorded, b) {
      MergeCovers(Sort(recorded, StartsNoLater), b);
    }
  }

  lemma GapsOrdered(m: seq<Range>, total: nat)
    requires Ordered(m, total) && Apart(m)
    ensures Ordered(Gaps(m, total), total) && Apart(Gaps(m, total))
  {
    GapsShape(m, total);
    OrderedBelowCursor(m, total);
    GapToShape(GapsBefore(m), Cursor(m), total);
  }

  /** For disjoint in-bounds ranges in any order: `received` and `missing` are sorted, disjoint
      and non-touching within themselves, and cover exactly the recorded and the unrecorded
      bytes, so together they partition the object. */
  lemma ReceivedAndMissing(recorded: seq<Range>, total: nat)
    requires Disjoint(recorded, total)
    ensures Ordered(Received(recorded), total) && Apart(Received(recorded))
    ensures Ordered(Missing(recorded, total), total) && Apart(Missing(recorded, total))
    ensures forall b :: Covered(Received(recorded), b) <==> Covered(recorded, b)
    ensures Partition(recorded, Missing(recorded, total), total)
  {
    ReceivedShape(recorded, total);
    GapsOrdered(Received(recorded), total);
    forall x | 0 <= x < total ensures Covered(recorded, x) <==> !Covered(Missing(recorded, total), x) {
      GapsPartition(Received(recorded), total, x);
      assert Covered(Received(recorded), x) <==> Covered(recorded, x);
    }
  }

  /** Nothing is missing exactly when every byte was recorded. */
  lemma CompleteIff(recorded: seq<Range>, total: nat)
    requires Disjoint(recorded, total)
    ensures Missing(recorded, total) == [] <==> forall b :: 0 <= b < total ==> Covered(recorded, b)
  {
    ReceivedAndMissing(recorded, total);
    var gaps := Missing(recorded, total);
    if gaps != [] {
      assert Holds(gaps[0], gaps[0].offset);
      assert Covered(gaps, gaps[0].offset);
    }
  }

  /** Where the ranges before the `i`-th leave off. */
  function LeftOff(s: seq<Range>, i: nat): nat
    requires i <= |s|
  {
    if i == 0 then 0 else End(s[i-1])
  }

  /** Every range starts no later than the one before it ends, the first at zero. */
  ghost predicate LinksUp(s: seq<Range>) {
    forall i :: 0 <= i < |s| ==> s[i].offset <= LeftOff(s, i)
  }

  lemma LinksUpLast(s: seq<Range>)
    requires s != []
    ensures LinksUp(s) <==> LinksUp(s[..|s|-1]) && s[|s|-1].offset <= Cursor(s[..|s|-1])
  {
    var init := s[..|s|-1];
    assert forall i :: 0 <= i <= |init| ==> LeftOff(init, i) == LeftOff(s, i);
    if LinksUp(s) {
      assert s[|s|-1].offset <= LeftOff(s, |s| - 1);
      forall i | 0 <= i < |init| ensures init[i].offset <= LeftOff(init, i) {
        assert s[i] == init[i] && s[i].offset <= LeftOff(s, i);
      }
    }
    if LinksUp(init) && s[|s|-1].offset <= Cursor(init) {
      forall i | 0 <= i < |s| ensures s[i].offset <= LeftOff(s, i) {
        if i < |init| { assert s[i] == init[i] && init[i].offset <= LeftOff(init, i); }
      }
    }
  }

  lemma GapsOfLonger(init: seq<Range>, last: Range, more: nat)
    ensures GapsBefore(init + [Range(last.offset, more)]) == GapsBefore(init + [last])
  {
    assert (init + [Range(last.offset, more)])[..|init|] == init == (init + [last])[..|init|];
  }

  lemma GapsOfAbsorb(merged: seq<Range>, r: Range)
    ensures Cursor(Absorb(merged, r)) == End(r)
    ensures GapsBefore(Absorb(merged, r)) == GapsBefore(merged) + GapTo(Cursor(merged), r.offset)
  {
    if merged != [] && End(merged[|merged|-1]) == r.offset {
      var init, last := merged[..|merged|-1], merged[|merged|-1];
      assert merged == init + [last];
      GapsOfLonger(init, last, last.length + r.length);
    } else {
      assert (merged + [r])[..|merged|] == merged;
    }
  }

  lemma {:induction false} LinksUpNoGap(s: seq<Range>)
    ensures Cursor(Merge(s)) == Cursor(s)
    ensures GapsBefore(Merge(s)) == [] <==> LinksUp(s)
  {
    if s != [] {
      var init := s[..|s|-1];
      LinksUpNoGap(init);
      GapsOfAbsorb(Merge(init), s[|s|-1]);
      LinksUpLast(s);
    }
  }

  lemma NoGapIff(s: seq<Range>, total: nat)
    ensures Gaps(Merge(s), total) == [] <==> LinksUp(s) && total <= LeftOff(s, |s|)
  {
    LinksUpNoGap(s);
    assert Cursor(s) == LeftOff(s, |s|);
  }

  /** Whatever was recorded, overlapping or not: nothing is missing exactly when, read in order of
      offset, the ranges link up from zero and the last one ends no earlier than the object. */
  lemma MissingNothingIff(recorded: seq<Range>, total: nat)
    ensures var s := Sort(recorded, StartsNoLater);
      Missing(recorded, total) == [] <==> LinksUp(s) && total <= LeftOff(s, |s|)
  {
    NoGapIff(Sort(recorded, StartsNoLater), total);
  }

  lemma {:induction false} LinksUpCovers(s: seq<Range>, b: nat)
    requires LinksUp(s) && b < Cursor(s)
    ensures Covered(s, b)
  {
    var init := s[..|s|-1];
    if Holds(s[|s|-1], b) {
      assert Covered(s, b);
    } else {
      LinksUpLast(s);
      LinksUpCovers(init, b);
      var i :| 0 <= i < |init| && Holds(init[i], b);
      assert Holds(s[i], b);
    }
  }

  lemma SortCovers(recorded: seq<Range>)
    ensures forall b :: Covered(Sort(recorded, StartsNoLater), b) <==> Covered(recorded, b)
  {
    SameElements(recorded, Sort(recorded, StartsNoLater));
    CoveredSame(recorded, Sort(recorded, StartsNoLater));
  }

  /** And then every byte was recorded: no list, however odd, hides a gap. */
  lemma NoHiddenGap(recorded: seq<Range>, total: nat, b: nat)
    requires Missing(recorded, total) == [] && b < total
    ensures Covered(recorded, b)
  {
    MissingNothingIff(recorded, total);
    LinksUpCovers(Sort(recorded, StartsNoLater), b);
    SortCovers(recorded);
  }

  /** The converse needs the disjointness that range writes keep: a range inside an earlier one
      moves the cursor back, and bytes that were recorded are reported missing. */
  lemma NestedRangeReported()
    ensures var recorded := [Range(0, 10), Range(2, 3)];
      && (forall b :: 0 <= b < 10 ==> Covered(recorded, b))
      && Missing(recorded, 10) == [Range(5, 5)]
  {
    var a, c := Range(0, 10), Range(2, 3);
    var recorded := [a, c];
    forall b: nat | b < 10 ensures Covered(recorded, b) {
      assert Holds(recorded[0], b);
    }
    assert recorded[1..] == [c] && [c][1..] == [];
    assert Sort([c], StartsNoLater) == [c];
    assert Sort(recorded, StartsNoLater) == recorded;
    assert recorded[..1] == [a] && [a][..0] == [];
    assert Merge([a]) == [a];
    assert Merge(recorded) == recorded;
    assert GapsBefore([a]) == [];
    assert GapsBefore(recorded) == [];
  }

  // ---------------------------------------------------------------- the loops

  lemma GapsNext(m: seq<Range>, i: nat)
    requires i < |m|
    ensures GapsBefore(m[..i+1]) == GapsBefore(m[..i]) + GapTo(Cursor(m[..i]), m[i].offset)
    ensures Cursor(m[..i+1]) == End(m[i])
  {
    assert m[..i+1][..i] == m[..i];
  }

  /** `merge_ranges`. */
  method MergeRanges(ranges: seq<Range>) returns (merged: seq<Range>)
    ensures merged == Received(ranges)
  {
    var sorted := Sort(ranges, StartsNoLater);
    merged := [];
    for i := 0 to |sorted|
      invariant merged == Merge(sorted[..i])
    {
      MergeNext(sorted, i);
      var r := sorted[i];
      if merged != [] && End(merged[|merged|-1]) == r.offset {
        var last := merged[|merged|-1];
        merged := merged[..|merged|-1] + [Range(last.offset, last.length + r.length)];
      } else {
        merged := merged + [r];
      }
    }
    assert sorted[..|sorted|] == sorted;
  }

  /** `missing`: a cursor over the received set. */
  method MissingRanges(recorded: seq<Range>, total: nat) returns (gaps: seq<Range>)
    ensures gaps == Missing(recorded, total)
  {
    var received := MergeRanges(recorded);
    gaps := [];
    var cursor := 0;
    for i := 0 to |received|
      invariant gaps == GapsBefore(received[..i]) && cursor == Cursor(received[..i])
    {
      GapsNext(received, i);
      var r := received[i];
      if r.offset > cursor {
        gaps := gaps + [Range(cursor, r.offset - cursor)];
      } else {
        assert gaps + GapTo(cursor, r.offset) == gaps;
      }
      cursor := r.offset + r.length;
    }
    assert received[..|received|] == received;
    if cursor < total {
      gaps := gaps + [Range(cursor, total - cursor)];
    }
  }
}
