/** Runs of missing heights: what DetectGaps must return, and why that determines its result. */
module Gaps {
  import opened Storage

  /** An inclusive range of heights. */
  datatype GapRange = GapRange(start: nat, end: nat) {
    function Size(): nat {
      if end < start then 0 else end - start + 1
    }

    predicate Contains(h: nat) {
      start <= h <= end
    }
  }

  ghost predicate InGaps(gaps: seq<GapRange>, h: nat) {
    exists i :: 0 <= i < |gaps| && gaps[i].Contains(h)
  }

  /** gaps lists the heights of first .. end - 1 that are not stored, in order, each as part of one
      range, no range touching the next. */
  ghost predicate ExactGaps(blocks: map<nat, Block>, first: nat, end: nat, gaps: seq<GapRange>) {
    && Apart(first, end, gaps)
    && (forall h: nat :: InGaps(gaps, h) <==> first <= h < end && h !in blocks)
  }

  ghost predicate Apart(first: nat, end: nat, gaps: seq<GapRange>) {
    && (forall i :: 0 <= i < |gaps| ==> first <= gaps[i].start <= gaps[i].end < end)
    && (forall i, j :: 0 <= i < j < |gaps| ==> gaps[i].end + 1 < gaps[j].start)
  }

  function TotalSize(gaps: seq<GapRange>): nat {
    if gaps == [] then 0 else TotalSize(gaps[..|gaps| - 1]) + gaps[|gaps| - 1].Size()
  }

  ghost function MissingCount(blocks: map<nat, Block>, first: nat, end: nat): nat
    decreases end
  {
    if end <= first then 0
    else MissingCount(blocks, first, end - 1) + if end - 1 in blocks then 0 else 1
  }

  lemma SkipStored(blocks: map<nat, Block>, first: nat, end: nat, gaps: seq<GapRange>)
    requires ExactGaps(blocks, first, end, gaps) && end in blocks
    ensures ExactGaps(blocks, first, end + 1, gaps)
  {
  }

  /** A run of missing heights from s to e - 1, preceded by a stored one, becomes the next gap. */
  lemma CloseGap(blocks: map<nat, Block>, first: nat, gaps: seq<GapRange>, s: nat, e: nat)
    requires first <= s < e && ExactGaps(blocks, first, s, gaps)
    requires forall h :: s <= h < e ==> h !in blocks
    requires s == first || s - 1 in blocks
    ensures ExactGaps(blocks, first, e, gaps + [GapRange(s, e - 1)])
  {
    var more := gaps + [GapRange(s, e - 1)];
    forall i | 0 <= i < |gaps| ensures gaps[i].end + 1 < s {
      assert gaps[i].Contains(gaps[i].end) && InGaps(gaps, gaps[i].end);
    }
    forall h: nat ensures InGaps(more, h) <==> first <= h < e && h !in blocks {
      if InGaps(gaps, h) {
        var i :| 0 <= i < |gaps| && gaps[i].Contains(h);
        assert more[i].Contains(h);
      }
      if s <= h < e {
        assert more[|gaps|].Contains(h);
      }
    }
  }

  /** No other gap reaches the heights next to gap i. */
  lemma NeighboursOutside(blocks: map<nat, Block>, first: nat, end: nat, gaps: seq<GapRange>, i: nat, h: nat)
    requires ExactGaps(blocks, first, end, gaps) && i < |gaps|
    requires h + 1 == gaps[i].start || h == gaps[i].end + 1
    ensures !InGaps(gaps, h)
  {
    forall j | 0 <= j < |gaps| ensures !gaps[j].Contains(h) {
      assert j < i ==> gaps[j].end + 1 < gaps[i].start;
      assert i < j ==> gaps[i].end + 1 < gaps[j].start;
    }
  }

  /** Each gap is maximal: the heights next to it, if in range, are stored. */
  lemma GapsAreMaximal(blocks: map<nat, Block>, first: nat, end: nat, gaps: seq<GapRange>, i: nat)
    requires ExactGaps(blocks, first, end, gaps) && i < |gaps|
    ensures first < gaps[i].start ==> gaps[i].start - 1 in blocks
    ensures gaps[i].end + 1 < end ==> gaps[i].end + 1 in blocks
  {
    if first < gaps[i].start {
      NeighboursOutside(blocks, first, end, gaps, i, gaps[i].start - 1);
    }
    NeighboursOutside(blocks, first, end, gaps, i, gaps[i].end + 1);
  }

  lemma DropStored(blocks: map<nat, Block>, first: nat, end: nat, gaps: seq<GapRange>)
    requires first < end && ExactGaps(blocks, first, end, gaps) && end - 1 in blocks
    ensures ExactGaps(blocks, first, end - 1, gaps)
  {
    forall i | 0 <= i < |gaps| ensures gaps[i].end < end - 1 {
      assert gaps[i].Contains(gaps[i].end) && InGaps(gaps, gaps[i].end);
    }
  }

  /** The last missing height is the end of the last gap. */
  lemma LastMissing(blocks: map<nat, Block>, first: nat, end: nat, gaps: seq<GapRange>)
    requires first < end && ExactGaps(blocks, first, end, gaps) && end - 1 !in blocks
    ensures gaps != [] && gaps[|gaps| - 1].end == end - 1
  {
    assert InGaps(gaps, end - 1);
    assert forall i :: 0 <= i < |gaps| - 1 ==> gaps[i].end + 1 < gaps[|gaps| - 1].start <= end - 1;
    var j :| 0 <= j < |gaps| && gaps[j].Contains(end - 1);
  }

  /** The gaps without the last missing height. */
  function Shrink(gaps: seq<GapRange>): seq<GapRange>
    requires gaps != []
  {
    var n := |gaps| - 1;
    if gaps[n].start >= gaps[n].end then gaps[..n] else gaps[..n] + [GapRange(gaps[n].start, gaps[n].end - 1)]
  }

  lemma ShrinkCovers(blocks: map<nat, Block>, first: nat, end: nat, gaps: seq<GapRange>, h: nat)
    requires first < end && ExactGaps(blocks, first, end, gaps)
    requires gaps != [] && gaps[|gaps| - 1].end == end - 1
    ensures InGaps(Shrink(gaps), h) <==> InGaps(gaps, h) && h != end - 1
  {
    var n, shorter := |gaps| - 1, Shrink(gaps);
    if InGaps(gaps, h) && h != end - 1 {
      var i :| 0 <= i < |gaps| && gaps[i].Contains(h);
      assert shorter[i].Contains(h);
    }
    if InGaps(shorter, h) {
      var i :| 0 <= i < |shorter| && shorter[i].Contains(h);
      assert gaps[i].Contains(h);
      assert i < n ==> gaps[i].end + 1 < gaps[n].start;
    }
  }

  lemma ShrinkSize(gaps: seq<GapRange>)
    requires gaps != [] && gaps[|gaps| - 1].start <= gaps[|gaps| - 1].end
    ensures TotalSize(gaps) == TotalSize(Shrink(gaps)) + 1
  {
    var n := |gaps| - 1;
    if gaps[n].start < gaps[n].end {
      assert Shrink(gaps)[..n] == gaps[..n];
    }
  }

  /** Each gap but the last keeps its place, and what is left of the last one starts where it did. */
  lemma ShrinkPlaces(gaps: seq<GapRange>, i: nat)
    requires gaps != [] && i < |Shrink(gaps)|
    ensures i < |gaps| && Shrink(gaps)[i].start == gaps[i].start
    ensures Shrink(gaps)[i].end == if i < |gaps| - 1 then gaps[i].end else gaps[i].end - 1
    ensures i == |gaps| - 1 ==> gaps[i].start < gaps[i].end
  {
  }

  lemma ShrinkApart(first: nat, end: nat, gaps: seq<GapRange>)
    requires gaps != [] && gaps[|gaps| - 1].end == end - 1 && Apart(first, end, gaps)
    ensures Apart(first, end - 1, Shrink(gaps))
  {
    var shorter, last := Shrink(gaps), |gaps| - 1;
    forall i | 0 <= i < |shorter| ensures first <= shorter[i].start <= shorter[i].end < end - 1 {
      ShrinkPlaces(gaps, i);
      assert i < last ==> gaps[i].end + 1 < gaps[last].start;
    }
    forall i, j | 0 <= i < j < |shorter| ensures shorter[i].end + 1 < shorter[j].start {
      ShrinkPlaces(gaps, i);
      ShrinkPlaces(gaps, j);
    }
  }

  lemma ShrinkExact(blocks: map<nat, Block>, first: nat, end: nat, gaps: seq<GapRange>)
    requires first < end && ExactGaps(blocks, first, end, gaps)
    requires gaps != [] && gaps[|gaps| - 1].end == end - 1
    ensures ExactGaps(blocks, first, end - 1, Shrink(gaps))
    ensures TotalSize(gaps) == TotalSize(Shrink(gaps)) + 1
  {
    ShrinkSize(gaps);
    ShrinkApart(first, end, gaps);
    forall h: nat ensures InGaps(Shrink(gaps), h) <==> InGaps(gaps, h) && h != end - 1 {
      ShrinkCovers(blocks, first, end, gaps, h);
    }
    hide InGaps, TotalSize, Shrink, Apart;
  }

  /** The sizes of the gaps add up to the number of missing heights. */
  lemma {:induction false} GapSizesAddUp(blocks: map<nat, Block>, first: nat, end: nat, gaps: seq<GapRange>)
    requires first <= end && ExactGaps(blocks, first, end, gaps)
    ensures TotalSize(gaps) == MissingCount(blocks, first, end)
    decreases end
  {
    hide InGaps, TotalSize;
    if first == end {
      NoGaps(blocks, first, gaps);
    } else if end - 1 in blocks {
      DropStored(blocks, first, end, gaps);
      GapSizesAddUp(blocks, first, end - 1, gaps);
    } else {
      LastMissing(blocks, first, end, gaps);
      ShrinkExact(blocks, first, end, gaps);
      GapSizesAddUp(blocks, first, end - 1, Shrink(gaps));
    }
  }

  lemma NoGaps(blocks: map<nat, Block>, first: nat, gaps: seq<GapRange>)
    requires ExactGaps(blocks, first, first, gaps)
    ensures TotalSize(gaps) == 0
  {
    StartInGaps(gaps);
  }

  /** The list of gaps is determined by what is stored. */
  lemma {:induction false} GapsAreUnique(blocks: map<nat, Block>, first: nat, end: nat, a: seq<GapRange>, b: seq<GapRange>)
    requires ExactGaps(blocks, first, end, a) && ExactGaps(blocks, first, end, b)
    ensures a == b
    decreases |a|
  {
    StartInGaps(a);
    StartInGaps(b);
    if a != [] && b != [] {
      SameFirstGap(blocks, first, end, a, b);
      DropFirst(blocks, first, end, a);
      DropFirst(blocks, first, end, b);
      GapsAreUnique(blocks, a[0].end + 1, end, a[1..], b[1..]);
      assert a == [a[0]] + a[1..] && b == [b[0]] + b[1..];
    }
  }

  lemma StartInGaps(gaps: seq<GapRange>)
    requires forall i :: 0 <= i < |gaps| ==> gaps[i].start <= gaps[i].end
    ensures gaps == [] <==> forall h: nat :: !InGaps(gaps, h)
    ensures gaps != [] ==> InGaps(gaps, gaps[0].start) && InGaps(gaps, gaps[0].end)
  {
    if gaps != [] {
      assert gaps[0].Contains(gaps[0].start) && gaps[0].Contains(gaps[0].end);
      assert InGaps(gaps, gaps[0].start);
    }
  }

  lemma FirstGap(blocks: map<nat, Block>, first: nat, end: nat, gaps: seq<GapRange>, h: nat)
    requires ExactGaps(blocks, first, end, gaps) && InGaps(gaps, h)
    ensures gaps != [] && gaps[0].start <= h
    ensures gaps[0].start !in blocks && gaps[0].end !in blocks
  {
    var i :| 0 <= i < |gaps| && gaps[i].Contains(h);
    assert i > 0 ==> gaps[0].end + 1 < gaps[i].start;
    assert gaps[0].Contains(gaps[0].start) && gaps[0].Contains(gaps[0].end);
    assert InGaps(gaps, gaps[0].start) && InGaps(gaps, gaps[0].end);
  }

  lemma FirstGapNoShorter(blocks: map<nat, Block>, first: nat, end: nat, a: seq<GapRange>, b: seq<GapRange>)
    requires ExactGaps(blocks, first, end, a) && ExactGaps(blocks, first, end, b) && a != [] && b != []
    ensures a[0].start <= b[0].start
    ensures a[0].start == b[0].start ==> a[0].end >= b[0].end
  {
    StartInGaps(b);
    FirstGap(blocks, first, end, a, b[0].start);
    NeighboursOutside(blocks, first, end, a, 0, a[0].end + 1);
    assert b[0].Contains(a[0].end + 1) ==> InGaps(b, a[0].end + 1);
  }

  lemma SameFirstGap(blocks: map<nat, Block>, first: nat, end: nat, a: seq<GapRange>, b: seq<GapRange>)
    requires ExactGaps(blocks, first, end, a) && ExactGaps(blocks, first, end, b) && a != [] && b != []
    ensures a[0] == b[0]
  {
    FirstGapNoShorter(blocks, first, end, a, b);
    FirstGapNoShorter(blocks, first, end, b, a);
  }

  lemma DropFirst(blocks: map<nat, Block>, first: nat, end: nat, gaps: seq<GapRange>)
    requires ExactGaps(blocks, first, end, gaps) && gaps != []
    ensures ExactGaps(blocks, gaps[0].end + 1, end, gaps[1..])
  {
    var rest := gaps[1..];
    forall h: nat ensures InGaps(rest, h) <==> gaps[0].end + 1 <= h < end && h !in blocks {
      if InGaps(rest, h) {
        var i :| 0 <= i < |rest| && rest[i].Contains(h);
        assert gaps[i + 1].Contains(h);
      }
      if InGaps(gaps, h) && gaps[0].end < h {
        var i :| 0 <= i < |gaps| && gaps[i].Contains(h);
        assert rest[i - 1].Contains(h);
      }
    }
  }
}
