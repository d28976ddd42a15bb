/** Selecting drawables by category (getDrawables, getShapes and getImages in
    src/scripts/interactive.js). Each category is a list of drawables; an
    include mask says which categories take part, and an optional index picks
    one drawable from each instead of all of them. */
module Drawables {
  import opened Wrappers
  import opened Seqs

  /** JavaScript's `array[index]`: undefined outside the array. */
  function Lookup<T>(s: seq<T>, index: int): (r: Option<T>)
    ensures r.Some? <==> 0 <= index < |s|
    ensures r.Some? ==> r.value == s[index]
  {
    if 0 <= index < |s| then Some(s[index]) else None
  }

  /** Every drawable of a list, each present. */
  function Lift<T>(s: seq<T>): (r: seq<Option<T>>)
    ensures |r| == |s|
    ensures forall i :: 0 <= i < |s| ==> r[i] == Some(s[i])
  {
    seq(|s|, i requires 0 <= i < |s| => Some(s[i]))
  }

  /** `includes[i]` is truthy; positions past the end of the mask read as
      undefined and so exclude their category. */
  predicate Included(includes: seq<int>, i: nat) {
    i < |includes| && includes[i] != 0
  }

  /** What an included category contributes: everything when there is no
      index, else the single (possibly undefined) entry at the index. */
  function Contribution<T>(category: seq<T>, index: Option<int>): (r: seq<Option<T>>)
    ensures index.None? ==> r == Lift(category)
    ensures index.Some? ==> r == [Lookup(category, index.value)]
  {
    match index
    case None => Lift(category)
    case Some(j) => [Lookup(category, j)]
  }

  /** The selection made from the categories, built up category by
      category. */
  function Selection<T>(categories: seq<seq<T>>, includes: seq<int>, index: Option<int>): seq<Option<T>>
  {
    if |categories| == 0 then []
    else
      var n := |categories| - 1;
      Selection(categories[..n], includes, index)
        + (if Included(includes, n) then Contribution(categories[n], index) else [])
  }

  /** The positions of the included categories among the first `n`, in
      increasing order, each once. */
  function IncludedPositions(includes: seq<int>, n: nat): (r: seq<nat>)
    ensures forall k :: 0 <= k < |r| ==> r[k] < n && Included(includes, r[k])
    ensures forall i :: 0 <= i < n && Included(includes, i) ==> i in r
    ensures |r| <= n
    ensures forall a, b :: 0 <= a < b < |r| ==> r[a] < r[b]
  {
    if n == 0 then []
    else IncludedPositions(includes, n - 1) + (if Included(includes, n - 1) then [n - 1] else [])
  }

  /** getDrawables(drawableTypes, includes, index). */
  method GetDrawables<T>(categories: seq<seq<T>>, includes: seq<int>, index: Option<int>)
    returns (drawables: seq<Option<T>>)
    ensures drawables == Selection(categories, includes, index)
    ensures index.None? ==> drawables == Lift(Flatten(IncludedCategories(categories, includes)))
    ensures index.Some? ==>
      |drawables| == |IncludedPositions(includes, |categories|)| &&
      forall k :: 0 <= k < |drawables| ==>
        drawables[k] == Lookup(categories[IncludedPositions(includes, |categories|)[k]], index.value)
  {
    drawables := [];
    var i := 0;
    while i < |categories|
      invariant 0 <= i <= |categories|
      invariant drawables == Selection(categories[..i], includes, index)
    {
      assert categories[..i + 1][..i] == categories[..i];
      if Included(includes, i) {
        match index
        case Some(j) =>
          drawables := drawables + [Lookup(categories[i], j)];
        case None =>
          drawables := drawables + Lift(categories[i]);
      }
      i := i + 1;
    }
    assert categories[..|categories|] == categories;
    if index.None? {
      SelectionAll(categories, includes);
    } else {
      SelectionAtIndex(categories, includes, index.value);
    }
  }

  /** The drawables of the included categories, whole and in category
      order. */
  function IncludedCategories<T>(categories: seq<seq<T>>, includes: seq<int>): seq<seq<T>>
  {
    var positions := IncludedPositions(includes, |categories|);
    seq(|positions|, k requires 0 <= k < |positions| => categories[positions[k]])
  }

  /** With no index, the selection is every drawable of every included
      category, in category order. */
  lemma {:induction false} SelectionAll<T>(categories: seq<seq<T>>, includes: seq<int>)
    ensures Selection(categories, includes, None) == Lift(Flatten(IncludedCategories(categories, includes)))
  {
    if |categories| > 0 {
      var n := |categories| - 1;
      var front := categories[..n];
      SelectionAll(front, includes);
      var before := IncludedCategories(front, includes);
      var added := if Included(includes, n) then [categories[n]] else [];
      IncludedCategoriesStep(categories, includes);
      FlattenAppend(before, added);
      if Included(includes, n) {
        FlattenSingle(categories[n]);
      }
      LiftAppend(Flatten(before), Flatten(added));
    }
  }

  /** Adding a category adds it to the included ones exactly when the mask
      includes it. */
  lemma IncludedCategoriesStep<T>(categories: seq<seq<T>>, includes: seq<int>)
    requires |categories| > 0
    ensures var n := |categories| - 1;
      IncludedCategories(categories, includes)
        == IncludedCategories(categories[..n], includes)
           + (if Included(includes, n) then [categories[n]] else [])
  {
    var n := |categories| - 1;
    var before := IncludedPositions(includes, n);
    assert forall k :: 0 <= k < |before| ==> categories[..n][before[k]] == categories[before[k]];
  }

  /** With an index, the selection holds exactly one entry per included
      category: that category's entry at the index. */
  lemma {:induction false} SelectionAtIndex<T>(categories: seq<seq<T>>, includes: seq<int>, j: int)
    ensures var positions := IncludedPositions(includes, |categories|);
      var r := Selection(categories, includes, Some(j));
      |r| == |positions| &&
      forall k :: 0 <= k < |r| ==> r[k] == Lookup(categories[positions[k]], j)
  {
    if |categories| > 0 {
      var n := |categories| - 1;
      SelectionAtIndex(categories[..n], includes, j);
      var before := IncludedPositions(includes, n);
      assert forall k :: 0 <= k < |before| ==> categories[..n][before[k]] == categories[before[k]];
    }
  }

  lemma FlattenSingle<T>(s: seq<T>)
    ensures Flatten([s]) == s
  {
    assert [s][1..] == [];
  }

  lemma LiftAppend<T>(a: seq<T>, b: seq<T>)
    ensures Lift(a + b) == Lift(a) + Lift(b)
  {
  }

  /** The mask only matters up to the number of categories, and missing
      entries count as falsy: padding it with zeros changes nothing. */
  lemma {:induction false} PaddingIgnored<T>(categories: seq<seq<T>>, includes: seq<int>, padding: nat, index: Option<int>)
    ensures Selection(categories, includes + seq(padding, _ => 0), index) == Selection(categories, includes, index)
  {
    if |categories| > 0 {
      var n := |categories| - 1;
      PaddingIgnored(categories[..n], includes, padding, index);
      var padded := includes + seq(padding, _ => 0);
      assert Included(padded, n) == Included(includes, n) by {
        if n < |includes| {
          assert padded[n] == includes[n];
        } else if n < |padded| {
          assert padded[n] == 0;
        }
      }
    }
  }

  /** getShapes(includes, index): the categories are shapes, masks and shape
      images, in that order. With the default mask only shapes are taken. */
  method GetShapes<T>(shapes: seq<T>, masks: seq<T>, images: seq<T>, includes: seq<int>, index: Option<int>)
    returns (r: seq<Option<T>>)
    ensures r == Selection([shapes, masks, images], includes, index)
    ensures includes == [1] && index.None? ==> r == Lift(shapes)
    ensures includes == [1, 1] && index.Some? ==>
      r == [Lookup(shapes, index.value), Lookup(masks, index.value)]
    ensures includes == [1, 1, 1] && index.None? ==> r == Lift(shapes + masks + images)
  {
    r := GetDrawables([shapes, masks, images], includes, index);
    ShapesCases(shapes, masks, images, includes, index);
  }

  lemma ShapesCases<T>(shapes: seq<T>, masks: seq<T>, images: seq<T>, includes: seq<int>, index: Option<int>)
    ensures includes == [1] && index.None? ==> Selection([shapes, masks, images], includes, index) == Lift(shapes)
    ensures includes == [1, 1] && index.Some? ==>
      Selection([shapes, masks, images], includes, index) == [Lookup(shapes, index.value), Lookup(masks, index.value)]
    ensures includes == [1, 1, 1] && index.None? ==>
      Selection([shapes, masks, images], includes, index) == Lift(shapes + masks + images)
  {
    SelectionOfThree(shapes, masks, images, includes, index);
    if includes == [1, 1, 1] && index.None? {
      LiftAppend(shapes, masks);
      LiftAppend(shapes + masks, images);
    }
  }

  lemma SelectionOfThree<T>(a: seq<T>, b: seq<T>, c: seq<T>, includes: seq<int>, index: Option<int>)
    ensures Selection([a, b, c], includes, index)
      == (if Included(includes, 0) then Contribution(a, index) else [])
         + (if Included(includes, 1) then Contribution(b, index) else [])
         + (if Included(includes, 2) then Contribution(c, index) else [])
  {
    SelectionOfTwo(a, b, includes, index);
    SelectionStep([a, b], c, includes, index);
    assert [a, b] + [c] == [a, b, c];
  }

  lemma SelectionOfTwo<T>(a: seq<T>, b: seq<T>, includes: seq<int>, index: Option<int>)
    ensures Selection([a, b], includes, index)
      == (if Included(includes, 0) then Contribution(a, index) else [])
         + (if Included(includes, 1) then Contribution(b, index) else [])
  {
    var empty: seq<seq<T>> := [];
    SelectionStep(empty, a, includes, index);
    assert empty + [a] == [a];
    SelectionStep([a], b, includes, index);
    assert [a] + [b] == [a, b];
  }

  /** Adding a category appends its contribution, when included. */
  lemma SelectionStep<T>(categories: seq<seq<T>>, category: seq<T>, includes: seq<int>, index: Option<int>)
    ensures Selection(categories + [category], includes, index)
      == Selection(categories, includes, index)
         + (if Included(includes, |categories|) then Contribution(category, index) else [])
  {
    assert (categories + [category])[..|categories|] == categories;
  }

  /** getImages(includes, index): the single rainbow image comes before the
      shape images. With the default mask only the rainbow image is taken. */
  method GetImages<T>(rainbowImage: T, shapeImages: seq<T>, includes: seq<int>, index: Option<int>)
    returns (r: seq<Option<T>>)
    ensures r == Selection([[rainbowImage], shapeImages], includes, index)
    ensures includes == [1] && index.None? ==> r == [Some(rainbowImage)]
    ensures includes == [1, 1] && index.None? ==> r == [Some(rainbowImage)] + Lift(shapeImages)
    ensures includes == [1, 1] && index == Some(0) ==> r[0] == Some(rainbowImage)
  {
    r := GetDrawables([[rainbowImage], shapeImages], includes, index);
    ImagesCases(rainbowImage, shapeImages, includes, index);
  }

  lemma ImagesCases<T>(rainbowImage: T, shapeImages: seq<T>, includes: seq<int>, index: Option<int>)
    ensures includes == [1] && index.None? ==>
      Selection([[rainbowImage], shapeImages], includes, index) == [Some(rainbowImage)]
    ensures includes == [1, 1] && index.None? ==>
      Selection([[rainbowImage], shapeImages], includes, index) == [Some(rainbowImage)] + Lift(shapeImages)
    ensures includes == [1, 1] && index == Some(0) ==>
      Selection([[rainbowImage], shapeImages], includes, index)[0] == Some(rainbowImage)
  {
    SelectionOfTwo([rainbowImage], shapeImages, includes, index);
  }
}
