/** The rank columns of the allocation table on the project page: between 5
    and 50 of the rank columns are visible, and the "show more" and "hide
    more" buttons move that count by 5. */
module Ranks {

  const MinRanks: int := 5
  const MaxRanks: int := 50

  /** The two bounds `updateVisibleRanks` enforces, upper bound first. */
  function Clamp(count: int): (r: int)
    ensures MinRanks <= r <= MaxRanks
    ensures MinRanks <= count <= MaxRanks ==> r == count
    ensures count > MaxRanks ==> r == MaxRanks
    ensures count < MinRanks ==> r == MinRanks
  {
    var c := if count > MaxRanks then MaxRanks else count;
    if c < MinRanks then MinRanks else c
  }

  /** A rank column is hidden exactly when its rank exceeds the count. */
  function HiddenFlags(ranks: seq<int>, count: int): (r: seq<bool>)
    ensures |r| == |ranks|
    ensures forall i :: 0 <= i < |r| ==> (r[i] <==> ranks[i] > count)
  {
    seq(|ranks|, i requires 0 <= i < |ranks| => ranks[i] > count)
  }

  /** "Show more" followed by "hide more" comes back to the same count,
      except from the top of the range, where the first press is lost. */
  lemma ShowThenHide(count: int)
    requires MinRanks <= count <= MaxRanks
    ensures count + 5 <= MaxRanks ==> Clamp(Clamp(count + 5) - 5) == count
    ensures count + 5 > MaxRanks ==> Clamp(Clamp(count + 5) - 5) == MaxRanks - 5
  {
  }

  /** Raising the count never hides a column that was visible, and lowering
      it never shows one that was hidden. */
  lemma {:induction false} HiddenMonotone(ranks: seq<int>, lo: int, hi: int)
    requires lo <= hi
    ensures forall i :: 0 <= i < |ranks| ==> (HiddenFlags(ranks, hi)[i] ==> HiddenFlags(ranks, lo)[i])
  {
    var a := HiddenFlags(ranks, hi);
    var b := HiddenFlags(ranks, lo);
    forall i | 0 <= i < |ranks|
      ensures a[i] ==> b[i]
    {
      assert a[i] <==> ranks[i] > hi;
      assert b[i] <==> ranks[i] > lo;
    }
  }

  /** The rank columns of the table that is on screen and the global
      `visibleRankCount`. `ranks` holds the `data-rank` of each `.rank-col`
      cell, `hidden` whether that cell has the class `hidden`. */
  class RankColumns {
    var visibleRankCount: int
    const ranks: seq<int>
    var hidden: seq<bool>
    /** Both buttons exist only on the allocation table. */
    const hasButtons: bool
    var showMoreDisabled: bool
    var hideMoreDisabled: bool

    predicate Valid()
      reads this
    {
      |hidden| == |ranks| && MinRanks <= visibleRankCount <= MaxRanks
    }

    /** `loadForm` resets the count to 5; the table is rendered with the
        columns above rank 5 hidden and the buttons set from that count. */
    constructor (ranks0: seq<int>, hasButtons0: bool)
      ensures Valid()
      ensures visibleRankCount == MinRanks && ranks == ranks0 && hasButtons == hasButtons0
      ensures hidden == HiddenFlags(ranks0, MinRanks)
      ensures hasButtons0 ==> !showMoreDisabled && hideMoreDisabled
    {
      visibleRankCount := MinRanks;
      ranks := ranks0;
      hidden := HiddenFlags(ranks0, MinRanks);
      hasButtons := hasButtons0;
      showMoreDisabled := MinRanks >= MaxRanks;
      hideMoreDisabled := MinRanks <= MinRanks;
    }

    /** `updateVisibleRanks`: moves the count, clamps it to [5, 50], toggles
        every rank column and refreshes the buttons. */
    method UpdateVisibleRanks(increment: int)
      requires Valid()
      modifies this
      ensures Valid()
      ensures visibleRankCount == Clamp(old(visibleRankCount) + increment)
      ensures hidden == HiddenFlags(ranks, visibleRankCount)
      ensures hasButtons ==> showMoreDisabled == (visibleRankCount == MaxRanks)
                             && hideMoreDisabled == (visibleRankCount == MinRanks)
      ensures !hasButtons ==> showMoreDisabled == old(showMoreDisabled) && hideMoreDisabled == old(hideMoreDisabled)
    {
      visibleRankCount := visibleRankCount + increment;
      if visibleRankCount > MaxRanks {
        visibleRankCount := MaxRanks;
      }
      if visibleRankCount < MinRanks {
        visibleRankCount := MinRanks;
      }
      var count := visibleRankCount;
      assert count == Clamp(old(visibleRankCount) + increment);
      var i := 0;
      while i < |ranks|
        invariant visibleRankCount == count
        invariant showMoreDisabled == old(showMoreDisabled) && hideMoreDisabled == old(hideMoreDisabled)
        invariant 0 <= i <= |ranks| && |hidden| == |ranks|
        invariant forall k :: 0 <= k < i ==> (hidden[k] <==> ranks[k] > visibleRankCount)
      {
        hidden := hidden[i := ranks[i] > visibleRankCount];
        i := i + 1;
      }
      UpdateColumnButtons();
    }

    /** `updateColumnButtons`: with both buttons present, "show more" is
        disabled at the top of the range and "hide more" at the bottom. */
    method UpdateColumnButtons()
      modifies this`showMoreDisabled, this`hideMoreDisabled
      ensures hasButtons ==> showMoreDisabled == (visibleRankCount >= MaxRanks)
                             && hideMoreDisabled == (visibleRankCount <= MinRanks)
      ensures !hasButtons ==> showMoreDisabled == old(showMoreDisabled) && hideMoreDisabled == old(hideMoreDisabled)
    {
      if hasButtons {
        showMoreDisabled := visibleRankCount >= MaxRanks;
        hideMoreDisabled := visibleRankCount <= MinRanks;
      }
    }
  }
}
