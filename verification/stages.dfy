/** Stage bookkeeping of src/scripts/interactive.js: which stages get the
    progress indicator, the scroll prompt and a ContentOut segment; where an
    in-between tween sits between two labels; and which shapes may expand. */
module Stages {
  import opened Wrappers
  import opened Seqs
  import Timeline
  import Utils

  /** The flags computed for stage `i` of `stageCount` (stage loop of
      createTheSacredTimeline). */
  datatype StageFlags = StageFlags(progressIn: bool, progressBar: bool, progressOut: bool,
                                   scrollPromptIn: bool, scrollPromptOut: bool, contentOut: bool)

  function Flags(i: nat, stageCount: nat): (f: StageFlags)
    ensures f.progressIn <==> i == 1
    ensures f.progressBar <==> 0 < i < stageCount - 1
    ensures f.progressOut <==> i == stageCount - 2
    ensures f.scrollPromptIn <==> i == 0
    ensures f.contentOut <==> i < stageCount - 1
  {
    StageFlags(i == 1, i > 0 && i < stageCount - 1, i == stageCount - 2,
               i == 0, i == 0, i < stageCount - 1)
  }

  /** The progress indicator has one bar per stage but the first and the
      last: the setup loop runs while `i < stageCount - 2`. */
  function ProgressBarCount(stageCount: nat): (n: nat)
    ensures stageCount >= 2 ==> n + 2 == stageCount
    ensures stageCount < 2 ==> n == 0
  {
    if stageCount < 2 then 0 else stageCount - 2
  }

  /** The bar a stage with a progress bar animates. */
  function BarIndex(i: nat): int {
    i - 1
  }

  /** Every stage that animates a progress bar names one of the bars that
      were created, and every created bar is animated by exactly one stage:
      stage `b + 1` animates bar `b`. */
  lemma BarsMatchStages(stageCount: nat)
    ensures forall i :: 0 <= i < stageCount && Flags(i, stageCount).progressBar ==>
      0 <= BarIndex(i) < ProgressBarCount(stageCount)
    ensures forall i :: 1 <= i <= ProgressBarCount(stageCount) ==>
      i < stageCount && Flags(i, stageCount).progressBar && BarIndex(i) == i - 1
    ensures forall i, j :: (0 <= i < j < stageCount && Flags(i, stageCount).progressBar
      && Flags(j, stageCount).progressBar) ==> BarIndex(i) != BarIndex(j)
  {
  }

  /** The stage whose progress bar starts at its ContentIn label rather than
      at its In label. */
  datatype BarStart = AtContentIn | AtIn

  function BarStartLabel(i: nat): BarStart
  {
    if i == 1 then AtContentIn else AtIn
  }

  /** A bar starts at the ContentIn label exactly on the stage that brings
      the progress indicator in, which waits for its content; every other bar
      starts with its stage. */
  lemma BarStartFollowsProgressIn(i: nat, stageCount: nat)
    requires Flags(i, stageCount).progressBar
    ensures BarStartLabel(i) == AtContentIn <==> Flags(i, stageCount).progressIn
  {
  }

  /** The flags of every stage, in order. */
  method AllFlags(stageCount: nat) returns (flags: seq<StageFlags>)
    ensures |flags| == stageCount
    ensures forall i :: 0 <= i < stageCount ==> flags[i] == Flags(i, stageCount)
  {
    flags := [];
    var i := 0;
    while i < stageCount
      invariant 0 <= i <= stageCount
      invariant |flags| == i
      invariant forall j :: 0 <= j < i ==> flags[j] == Flags(j, stageCount)
    {
      flags := flags + [Flags(i, stageCount)];
      i := i + 1;
    }
  }

  /** How many of the first `n` stages add a ContentOut segment. */
  function ContentOutCount(n: nat, stageCount: nat): nat {
    if n == 0 then 0
    else ContentOutCount(n - 1, stageCount) + (if Flags(n - 1, stageCount).contentOut then 1 else 0)
  }

  /** Every stage but the last fades its content out. */
  lemma {:induction false} ContentOutAllButLast(n: nat, stageCount: nat)
    requires n <= stageCount
    ensures ContentOutCount(n, stageCount) == if n == stageCount && n > 0 then n - 1 else n
  {
    if n > 0 {
      ContentOutAllButLast(n - 1, stageCount);
    }
  }

  /** With at least three stages, the progress indicator comes in at stage 1,
      goes out at stage stageCount - 2, no earlier, and both are stages that
      have a bar; the out-tween is on a stage with a ContentOut segment, so it
      is always scheduled. The scroll prompt's out-tween is scheduled exactly
      when there is more than one stage. */
  lemma ProgressLifecycle(stageCount: nat)
    requires stageCount >= 3
    ensures Flags(1, stageCount).progressIn && Flags(1, stageCount).progressBar
    ensures Flags(stageCount - 2, stageCount).progressOut
    ensures Flags(stageCount - 2, stageCount).progressBar
    ensures Flags(stageCount - 2, stageCount).contentOut
    ensures forall i :: 0 <= i < stageCount && Flags(i, stageCount).progressOut ==> i >= 1
  {
  }

  lemma ScrollPromptLifecycle(stageCount: nat)
    requires stageCount >= 1
    ensures Flags(0, stageCount).scrollPromptIn
    ensures Flags(0, stageCount).scrollPromptOut && Flags(0, stageCount).contentOut <==> stageCount >= 2
    ensures forall i :: 0 < i < stageCount ==> !Flags(i, stageCount).scrollPromptIn && !Flags(i, stageCount).scrollPromptOut
  {
  }

  /** Where a tween between two labels sits. A label that resolves nowhere
      makes the arithmetic that reads it NaN in JavaScript; that is None
      here, so an unresolved end label leaves the position defined and only
      the duration undefined. */
  datatype Placement = Placement(position: Option<real>, duration: Option<real>)

  /** addInBetweenTween: the tween starts `offset` after the start label and
      lasts until the end label. */
  function InBetween(start: Option<real>, end: Option<real>, offset: real): (r: Placement)
    ensures r.position.Some? <==> start.Some?
    ensures r.duration.Some? <==> start.Some? && end.Some?
    ensures r.position.Some? ==> r.position.value - start.value == offset
    ensures r.duration.Some? ==> r.position.value + r.duration.value == end.value
  {
    match (start, end)
    case (Some(s), Some(e)) => Placement(Some(s + offset), Some(e - s - offset))
    case (Some(s), None) => Placement(Some(s + offset), None)
    case _ => Placement(None, None)
  }

  /** The tween between two labels of a timeline: it starts `offset` after
      the start label's time and ends on the end label's time, each defined
      when the labels it reads resolve. */
  function InBetweenTween(t: Timeline.Timeline, order: seq<Timeline.Path>, startName: string,
                          endName: string, offset: real): (r: Placement)
    requires Timeline.ValidOrder(t, order)
    ensures r.position.Some? <==> Timeline.LabelTime(t, order, startName).Some?
    ensures r.duration.Some? <==>
      Timeline.LabelTime(t, order, startName).Some? && Timeline.LabelTime(t, order, endName).Some?
    ensures r.position.Some? ==>
      r.position.value == Timeline.LabelTime(t, order, startName).value + offset
    ensures r.duration.Some? ==>
      r.position.value + r.duration.value == Timeline.LabelTime(t, order, endName).value
  {
    InBetween(Timeline.LabelTime(t, order, startName), Timeline.LabelTime(t, order, endName), offset)
  }

  /** Whatever the offset, the tween ends on the end label; ending on the
      reserved "end" label, it ends with the timeline. Offsets only move the
      start. */
  lemma InBetweenEndsOnEndLabel(t: Timeline.Timeline, order: seq<Timeline.Path>, startName: string,
                                offset1: real, offset2: real)
    requires Timeline.ValidOrder(t, order)
    requires Timeline.LabelTime(t, order, startName).Some?
    ensures var a := InBetweenTween(t, order, startName, "end", offset1);
      var b := InBetweenTween(t, order, startName, "end", offset2);
      a.position.Some? && a.duration.Some? && b.position.Some? && b.duration.Some?
      && a.position.value + a.duration.value == t.totalDuration
      && a.position.value + a.duration.value == b.position.value + b.duration.value
      && b.position.value - a.position.value == offset2 - offset1
  {
    Timeline.ReservedLabels(t, order);
  }

  /** JavaScript's `slice(0, end)` on a list of `len` items: a negative end
      counts back from the length, and the result never exceeds the list. */
  function SliceEnd(len: nat, end: int): (k: nat)
    ensures k <= len
    ensures end >= 0 ==> k == if end < len then end else len
    ensures end < 0 ==> k + (if -end < len then -end else len) == len
  {
    if end < 0 then (if len + end < 0 then 0 else len + end)
    else if end < len then end
    else len
  }

  /** The shape indices other than the focal point's, in order. */
  function WithoutFocal(n: nat, focal: int): (r: seq<nat>)
    ensures |r| == if 0 <= focal < n then n - 1 else n
    ensures forall k :: 0 <= k < |r| ==> r[k] < n && r[k] != focal
    ensures forall i :: 0 <= i < n && i != focal ==> i in r
    ensures forall a, b :: 0 <= a < b < |r| ==> r[a] < r[b]
  {
    if n == 0 then []
    else WithoutFocal(n - 1, focal) + (if n - 1 == focal then [] else [n - 1])
  }

  /** `order` rearranges the positions 0 .. len - 1: the outcome of sorting
      with a random comparator, which can be any arrangement. */
  predicate IsArrangement(order: seq<nat>, len: nat) {
    |order| == len && (forall k :: 0 <= k < |order| ==> order[k] < len) && Distinct(order)
  }

  /** expandableShapeIndices: the non-focal indices, shuffled, cut to
      Math.round(shapeCount * shapeToCount). */
  function ExpandableShapeIndices(shapeCount: nat, focal: int, shapeToCount: real, shuffle: seq<nat>): (r: seq<nat>)
    requires IsArrangement(shuffle, |WithoutFocal(shapeCount, focal)|)
    ensures |r| == SliceEnd(|WithoutFocal(shapeCount, focal)|, Utils.JsRound(shapeCount as real * shapeToCount))
  {
    var kept := WithoutFocal(shapeCount, focal);
    var shuffled := seq(|kept|, k requires 0 <= k < |kept| => kept[shuffle[k]]);
    shuffled[..SliceEnd(|kept|, Utils.JsRound(shapeCount as real * shapeToCount))]
  }

  /** The selection never holds the focal shape, holds only real shape
      indices, and none twice; with a non-negative fraction it holds
      round(shapeCount * shapeToCount) of them, or every non-focal one when
      that is fewer. */
  lemma ExpandableShapeIndicesValid(shapeCount: nat, focal: int, shapeToCount: real, shuffle: seq<nat>)
    requires IsArrangement(shuffle, |WithoutFocal(shapeCount, focal)|)
    ensures var r := ExpandableShapeIndices(shapeCount, focal, shapeToCount, shuffle);
      focal !in r
      && (forall k :: 0 <= k < |r| ==> r[k] < shapeCount)
      && Distinct(r)
    ensures shapeToCount >= 0.0 ==>
      var wanted := Utils.JsRound(shapeCount as real * shapeToCount);
      var available := |WithoutFocal(shapeCount, focal)|;
      |ExpandableShapeIndices(shapeCount, focal, shapeToCount, shuffle)|
        == if wanted < available then wanted else available
  {
    var kept := WithoutFocal(shapeCount, focal);
    var r := ExpandableShapeIndices(shapeCount, focal, shapeToCount, shuffle);
    forall k | 0 <= k < |r|
      ensures r[k] == kept[shuffle[k]]
    {
    }
    forall a, b | 0 <= a < b < |r|
      ensures r[a] != r[b]
    {
      assert shuffle[a] != shuffle[b];
      if shuffle[a] < shuffle[b] {
        assert kept[shuffle[a]] < kept[shuffle[b]];
      } else {
        assert kept[shuffle[b]] < kept[shuffle[a]];
      }
    }
    if shapeToCount >= 0.0 {
      ProductNonNegative(shapeCount as real, shapeToCount);
      RoundNonNegative(shapeCount as real * shapeToCount);
    }
  }

  lemma ProductNonNegative(a: real, b: real)
    requires a >= 0.0 && b >= 0.0
    ensures a * b >= 0.0
  {
  }

  lemma RoundNonNegative(x: real)
    requires x >= 0.0
    ensures Utils.JsRound(x) >= 0
  {
  }

  /** With twenty shapes, the interactive's focal shape 18 and the default
      fraction 0.5, ten of the nineteen other shapes expand. */
  lemma ExpandableExample(shuffle: seq<nat>)
    requires IsArrangement(shuffle, 19)
    ensures |WithoutFocal(20, 18)| == 19
    ensures |ExpandableShapeIndices(20, 18, 0.5, shuffle)| == 10
  {
    assert Utils.JsRound(20.0 * 0.5) == 10;
  }
}
