/** The label-time resolver of src/scripts/utils.js (getLabelTime).

    A timeline is an immutable tree: each node has its own labels (name to
    local time), its start time inside its parent, its time scale, its total
    duration and its nested child timelines. A descendant is addressed by the
    path of child indices leading to it from the root, so the parent of the
    node at path `p` is the node at `p` without its last index. The order in
    which the animation library enumerates descendants is not visible, so it
    is an input: a sequence of descendant paths. */
module Timeline {
  import opened Wrappers

  datatype Timeline = Timeline(
    labels: map<string, real>,
    startTime: real,
    timeScale: real,
    totalDuration: real,
    children: seq<Timeline>)

  type Path = seq<nat>

  /** `p` leads from `t` to a node of the tree. */
  predicate ValidPath(t: Timeline, p: Path)
    decreases |p|
  {
    |p| == 0 || (p[0] < |t.children| && ValidPath(t.children[p[0]], p[1..]))
  }

  /** `p` is valid and every node it passes below `t` has a non-zero time scale,
      so a local time there can be converted into `t`'s frame. */
  predicate Convertible(t: Timeline, p: Path)
    decreases |p|
  {
    |p| == 0 ||
    (p[0] < |t.children| && t.children[p[0]].timeScale != 0.0
     && Convertible(t.children[p[0]], p[1..]))
  }

  function NodeAt(t: Timeline, p: Path): Timeline
    requires ValidPath(t, p)
    decreases |p|
  {
    if |p| == 0 then t else NodeAt(t.children[p[0]], p[1..])
  }

  lemma {:induction false} ConvertibleIsValid(t: Timeline, p: Path)
    requires Convertible(t, p)
    ensures ValidPath(t, p)
    decreases |p|
  {
    if |p| > 0 {
      ConvertibleIsValid(t.children[p[0]], p[1..]);
    }
  }

  /** Converts `time`, local to the node at `p`, into `t`'s frame: each node on
      the way maps a local time `u` to `startTime + u / timeScale` in its parent. */
  function ToRootTime(t: Timeline, p: Path, time: real): real
    requires Convertible(t, p)
    decreases |p|
  {
    if |p| == 0 then time
    else
      var c := t.children[p[0]];
      c.startTime + ToRootTime(c, p[1..], time) / c.timeScale
  }

  /** The parent step the source's loop takes: converting from the node at `p`
      equals converting its parent-frame time from the parent `p[..|p|-1]`. */
  lemma {:induction false} ToRootTimeLastStep(t: Timeline, p: Path, time: real)
    requires Convertible(t, p) && |p| > 0
    ensures Convertible(t, p[..|p| - 1])
    ensures ValidPath(t, p) && NodeAt(t, p).timeScale != 0.0
    ensures ToRootTime(t, p, time)
         == ToRootTime(t, p[..|p| - 1], NodeAt(t, p).startTime + time / NodeAt(t, p).timeScale)
    decreases |p|
  {
    ConvertibleIsValid(t, p);
    var c := t.children[p[0]];
    if |p| == 1 {
      assert p[1..] == [];
      assert p[..0] == [];
    } else {
      var q := p[1..];
      ToRootTimeLastStep(c, q, time);
      assert q[..|q| - 1] == p[..|p| - 1][1..];
      assert NodeAt(t, p) == NodeAt(c, q);
    }
  }

  /** With positive time scales on the path, conversion preserves order: a later
      local time is a later root time. */
  lemma {:induction false} ToRootTimeMonotone(t: Timeline, p: Path, t1: real, t2: real)
    requires Convertible(t, p) && t1 <= t2
    requires PositiveScales(t, p)
    ensures ToRootTime(t, p, t1) <= ToRootTime(t, p, t2)
    decreases |p|
  {
    if |p| > 0 {
      var c := t.children[p[0]];
      ToRootTimeMonotone(c, p[1..], t1, t2);
      DivideMonotone(ToRootTime(c, p[1..], t1), ToRootTime(c, p[1..], t2), c.timeScale);
    }
  }

  lemma DivideMonotone(a: real, b: real, k: real)
    requires a <= b && k > 0.0
    ensures a / k <= b / k
  {
  }

  predicate PositiveScales(t: Timeline, p: Path)
    decreases |p|
  {
    |p| == 0 || (p[0] < |t.children| && t.children[p[0]].timeScale > 0.0
                 && PositiveScales(t.children[p[0]], p[1..]))
  }

  /** Every path of the enumeration leads to a convertible descendant. */
  predicate ValidOrder(t: Timeline, order: seq<Path>) {
    forall i :: 0 <= i < |order| ==> ValidPath(t, order[i]) && Convertible(t, order[i]) && |order[i]| > 0
  }

  /** The index of the last node in `order` holding the label `name`, if any. */
  function LastHolder(t: Timeline, order: seq<Path>, name: string): (k: Option<nat>)
    requires ValidOrder(t, order)
    ensures k.Some? ==> k.value < |order| && ValidPath(t, order[k.value])
                        && name in NodeAt(t, order[k.value]).labels
    ensures k.Some? ==> forall j :: k.value < j < |order| ==> name !in NodeAt(t, order[j]).labels
    ensures k.None? ==> forall j :: 0 <= j < |order| ==> name !in NodeAt(t, order[j]).labels
  {
    if |order| == 0 then None
    else
      var last := |order| - 1;
      ConvertibleIsValid(t, order[last]);
      if name in NodeAt(t, order[last]).labels then Some(last)
      else LastHolder(t, order[..last], name)
  }

  /** getLabelTime, declaratively: the reserved names first, then the root's own
      labels, then the last descendant in enumeration order that holds the
      name, its local time carried up to the root. None stands for the
      source's `undefined`. */
  function LabelTime(t: Timeline, order: seq<Path>, name: string): Option<real>
    requires ValidOrder(t, order)
  {
    if name == "start" then Some(0.0)
    else if name == "end" then Some(t.totalDuration)
    else if name in t.labels then Some(t.labels[name])
    else
      match LastHolder(t, order, name)
      case None => None
      case Some(k) => Some(ToRootTime(t, order[k], NodeAt(t, order[k]).labels[name]))
  }

  /** getLabelTime as the source computes it: push the root after the
      descendants, scan from the back, then walk up the parent chain. */
  method GetLabelTime(t: Timeline, order: seq<Path>, name: string) returns (r: Option<real>)
    requires ValidOrder(t, order)
    ensures r == LabelTime(t, order, name)
    ensures r.None? <==> name != "start" && name != "end" && name !in t.labels
                         && forall j :: 0 <= j < |order| ==> name !in NodeAt(t, order[j]).labels
  {
    if name == "start" {
      return Some(0.0);
    }
    if name == "end" {
      return Some(t.totalDuration);
    }
    var bloodline := order + [[]];
    assert forall j :: 0 <= j < |bloodline| ==> Convertible(t, bloodline[j]);
    var i := |bloodline|;
    var found: Option<nat> := None;
    while i > 0
      invariant 0 <= i <= |bloodline|
      invariant forall j :: i <= j < |bloodline| ==>
        ValidPath(t, bloodline[j]) && name !in NodeAt(t, bloodline[j]).labels
      decreases i
    {
      i := i - 1;
      ConvertibleIsValid(t, bloodline[i]);
      if name in NodeAt(t, bloodline[i]).labels {
        found := Some(i);
        break;
      }
    }
    if found.None? {
      assert name !in t.labels by {
        assert bloodline[|order|] == [];
        ConvertibleIsValid(t, bloodline[|order|]);
      }
      assert forall j :: 0 <= j < |order| ==> name !in NodeAt(t, order[j]).labels by {
        forall j | 0 <= j < |order|
          ensures name !in NodeAt(t, order[j]).labels
        {
          assert bloodline[j] == order[j];
        }
      }
      return None;
    }
    var k := found.value;
    var p := bloodline[k];
    ConvertibleIsValid(t, p);
    var time := NodeAt(t, p).labels[name];
    var rootTime := WalkToRoot(t, p, time);
    r := Some(rootTime);
    if k == |order| {
      assert p == [];
    } else {
      assert name !in t.labels by {
        assert bloodline[|order|] == [];
      }
      assert p == order[k];
      forall j | k < j < |order|
        ensures name !in NodeAt(t, order[j]).labels
      {
        assert bloodline[j] == order[j];
      }
      LastHolderIsLast(t, order, name, k);
    }
  }

  /** The holder found by a backwards scan is the one LastHolder names. */
  lemma LastHolderIsLast(t: Timeline, order: seq<Path>, name: string, k: nat)
    requires ValidOrder(t, order) && k < |order|
    requires name in NodeAt(t, order[k]).labels
    requires forall j :: k < j < |order| ==> name !in NodeAt(t, order[j]).labels
    ensures LastHolder(t, order, name) == Some(k)
  {

  }

  /** The parent walk of the source: from the node at `p` up to the root,
      mapping the time through each node's start time and time scale. */
  method WalkToRoot(t: Timeline, p: Path, time: real) returns (r: real)
    requires Convertible(t, p)
    ensures r == ToRootTime(t, p, time)
  {
    var q := p;
    r := time;
    while |q| > 0
      invariant Convertible(t, q)
      invariant ToRootTime(t, q, r) == ToRootTime(t, p, time)
      decreases |q|
    {
      ToRootTimeLastStep(t, q, r);
      var node := NodeAt(t, q);
      r := node.startTime + r / node.timeScale;
      q := q[..|q| - 1];
    }
  }

  /** 'start' and 'end' resolve without searching. */
  lemma ReservedLabels(t: Timeline, order: seq<Path>)
    requires ValidOrder(t, order)
    ensures LabelTime(t, order, "start") == Some(0.0)
    ensures LabelTime(t, order, "end") == Some(t.totalDuration)
  {
  }

  /** The root is checked first: a label on the root resolves to the root's own
      value, whatever the descendants hold. */
  lemma RootLabelWins(t: Timeline, order: seq<Path>, name: string)
    requires ValidOrder(t, order)
    requires name != "start" && name != "end" && name in t.labels
    ensures LabelTime(t, order, name) == Some(t.labels[name])
  {
  }

  /** Otherwise the last holder in enumeration order wins, its time converted
      up the parent chain. */
  lemma LastDescendantWins(t: Timeline, order: seq<Path>, name: string, k: nat)
    requires ValidOrder(t, order) && k < |order|
    requires name != "start" && name != "end" && name !in t.labels
    requires name in NodeAt(t, order[k]).labels
    requires forall j :: k < j < |order| ==> name !in NodeAt(t, order[j]).labels
    ensures LabelTime(t, order, name) == Some(ToRootTime(t, order[k], NodeAt(t, order[k]).labels[name]))
  {
    LastHolderIsLast(t, order, name, k);
  }

  /** Every descendant of `t` appears somewhere in `order`. */
  ghost predicate Complete(t: Timeline, order: seq<Path>) {
    forall p :: ValidPath(t, p) && |p| > 0 ==> p in order
  }

  /** When the enumeration reaches every descendant, a label resolves to nothing
      exactly when no node of the tree holds it. */
  lemma NotFoundMeansAbsent(t: Timeline, order: seq<Path>, name: string)
    requires ValidOrder(t, order) && Complete(t, order)
    requires name != "start" && name != "end"
    ensures LabelTime(t, order, name).None?
        <==> forall p :: ValidPath(t, p) ==> name !in NodeAt(t, p).labels
  {
    var h := LastHolder(t, order, name);
    if LabelTime(t, order, name).None? {
      forall p | ValidPath(t, p)
        ensures name !in NodeAt(t, p).labels
      {
        if |p| > 0 {
          assert p in order;
          var j :| 0 <= j < |order| && order[j] == p;
          assert name !in NodeAt(t, order[j]).labels;
        } else {
          assert NodeAt(t, p) == t;
        }
      }
    } else if name !in t.labels {
      assert h.Some?;
      HeldSomewhere(t, order[h.value], name);
    } else {
      var root: Path := [];
      assert NodeAt(t, root) == t;
      HeldSomewhere(t, root, name);
    }
  }

  lemma HeldSomewhere(t: Timeline, p: Path, name: string)
    requires ValidPath(t, p) && name in NodeAt(t, p).labels
    ensures !(forall q :: ValidPath(t, q) ==> name !in NodeAt(t, q).labels)
  {
  }

  /** A child at parent time 10, running at time scale 2, with label "x" at
      local time 4: the label resolves to 10 + 4 / 2 = 12 in the parent. */
  lemma NestedExample()
    ensures var child := Timeline(map["x" := 4.0], 10.0, 2.0, 8.0, []);
            var parent := Timeline(map[], 0.0, 1.0, 14.0, [child]);
            LabelTime(parent, [[0]], "x") == Some(12.0)
  {
    var child := Timeline(map["x" := 4.0], 10.0, 2.0, 8.0, []);
    var parent := Timeline(map[], 0.0, 1.0, 14.0, [child]);
    assert [0][1..] == [];
    assert NodeAt(parent, [0]) == child;
  }
}
