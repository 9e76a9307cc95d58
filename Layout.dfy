/** The arena layout shared by every flat buffer of the evaluator: frame i
    owns the slice [Offset(counts, i), Offset(counts, i + 1)), where counts
    holds the pixel count of each accepted frame in acceptance order, and the
    contents of a buffer are the concatenation of the per-frame blocks. */
module Layout {

  /** Sum of the counts, accumulated front to back as the slicing loop does. */
  function Total(counts: seq<nat>): nat
  {
    if counts == [] then 0 else Total(counts[..|counts| - 1]) + counts[|counts| - 1]
  }

  /** Where slice i starts: after the pixels of every earlier frame. */
  function Offset(counts: seq<nat>, i: nat): nat
    requires i <= |counts|
  {
    Total(counts[..i])
  }

  function Lengths<T>(blocks: seq<seq<T>>): seq<nat>
  {
    seq(|blocks|, i requires 0 <= i < |blocks| => |blocks[i]|)
  }

  /** The blocks laid end to end, first block first. */
  function Concat<T>(blocks: seq<seq<T>>): seq<T>
  {
    if blocks == [] then [] else Concat(blocks[..|blocks| - 1]) + blocks[|blocks| - 1]
  }

  /** Appending a frame adds its count to the total. */
  lemma TotalSnoc(counts: seq<nat>, x: nat)
    ensures Total(counts + [x]) == Total(counts) + x
  {
    assert (counts + [x])[..|counts|] == counts;
  }

  /** Each slice is as long as its frame's count, and the next one starts where it ends. */
  lemma {:induction false} OffsetStep(counts: seq<nat>, i: nat)
    requires i < |counts|
    ensures Offset(counts, i + 1) == Offset(counts, i) + counts[i]
  {
    assert counts[..i + 1][..i] == counts[..i];
  }

  /** The first slice starts at 0 and the last one ends at the total. */
  lemma OffsetEnds(counts: seq<nat>)
    ensures Offset(counts, 0) == 0
    ensures Offset(counts, |counts|) == Total(counts)
  {
    assert counts[..|counts|] == counts;
  }

  /** Slice starts never decrease along the frame order. */
  lemma {:induction false} OffsetMonotone(counts: seq<nat>, i: nat, j: nat)
    requires i <= j <= |counts|
    ensures Offset(counts, i) <= Offset(counts, j)
  {
    if i < j {
      OffsetMonotone(counts, i, j - 1);
      OffsetStep(counts, j - 1);
    }
  }

  /** Every slice lies inside [0, Total(counts)). */
  lemma SliceWithin(counts: seq<nat>, i: nat)
    requires i < |counts|
    ensures Offset(counts, i) + counts[i] == Offset(counts, i + 1) <= Total(counts)
  {
    OffsetStep(counts, i);
    OffsetMonotone(counts, i + 1, |counts|);
    OffsetEnds(counts);
  }

  /** Slices are disjoint: a slice ends no later than any later slice starts. */
  lemma SlicesDisjoint(counts: seq<nat>, i: nat, j: nat)
    requires i < j < |counts|
    ensures Offset(counts, i + 1) <= Offset(counts, j)
  {
    OffsetMonotone(counts, i + 1, j);
  }

  /** The frame whose slice holds pixel k: the slices cover [0, Total(counts)). */
  function SliceOf(counts: seq<nat>, k: nat): (i: nat)
    requires k < Total(counts)
    ensures i < |counts| && Offset(counts, i) <= k < Offset(counts, i + 1)
  {
    var last := |counts| - 1;
    OffsetStep(counts, last);
    OffsetEnds(counts);
    assert counts[..last] == counts[..|counts| - 1];
    if k < Total(counts[..last]) then
      var i := SliceOf(counts[..last], k);
      assert counts[..last][..i] == counts[..i];
      assert counts[..last][..i + 1] == counts[..i + 1];
      i
    else
      last
  }

  /** No pixel lies in two slices. */
  lemma SliceUnique(counts: seq<nat>, k: nat, i: nat, j: nat)
    requires i < |counts| && Offset(counts, i) <= k < Offset(counts, i + 1)
    requires j < |counts| && Offset(counts, j) <= k < Offset(counts, j + 1)
    ensures i == j
  {
    if i < j {
      SlicesDisjoint(counts, i, j);
    } else if j < i {
      SlicesDisjoint(counts, j, i);
    }
  }

  lemma {:induction false} ConcatLength<T>(blocks: seq<seq<T>>)
    ensures |Concat(blocks)| == Total(Lengths(blocks))
  {
    if blocks != [] {
      var init := blocks[..|blocks| - 1];
      ConcatLength(init);
      assert Lengths(blocks)[..|blocks| - 1] == Lengths(init);
    }
  }

  /** Pixel m of block i sits at Offset(i) + m of the concatenation. */
  lemma {:induction false} ConcatAt<T>(blocks: seq<seq<T>>, i: nat, m: nat)
    requires i < |blocks| && m < |blocks[i]|
    ensures Offset(Lengths(blocks), i) + m < |Concat(blocks)|
    ensures Concat(blocks)[Offset(Lengths(blocks), i) + m] == blocks[i][m]
  {
    var last := |blocks| - 1;
    var init := blocks[..last];
    ConcatLength(blocks);
    ConcatLength(init);
    SliceWithin(Lengths(blocks), i);
    assert Lengths(init) == Lengths(blocks)[..last];
    if i < last {
      ConcatAt(init, i, m);
      assert Lengths(init)[..i] == Lengths(blocks)[..i];
    } else {
      assert Lengths(blocks)[..i] == Lengths(init);
    }
  }
}
