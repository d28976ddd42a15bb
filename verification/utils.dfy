/** The numeric and object helpers of src/scripts/utils.js: randInRange and
    mergeObj, plus JavaScript's Math.round and Math.pow(10, n) over reals.

    Math.random() is not a function of anything visible, so each draw it
    would make is a parameter in [0, 1). */
module Utils {
  import opened Wrappers

  function Abs(x: real): (a: real)
    ensures a >= 0.0 && (a == x || a == -x)
  {
    if x < 0.0 then -x else x
  }

  /** Math.pow(10, places) for a non-negative number of places. */
  function Pow10(places: nat): (p: real)
    ensures p >= 1.0
  {
    if places == 0 then 1.0 else 10.0 * Pow10(places - 1)
  }

  /** Math.round: the nearest integer, halves rounded towards +infinity. */
  function JsRound(x: real): (n: int)
    ensures x - 0.5 < n as real <= x + 0.5
  {
    (x + 0.5).Floor
  }

  /** `x` is a whole number. */
  predicate Whole(x: real) {
    x.Floor as real == x
  }

  /** `v` is a whole multiple of 1/scale. */
  predicate OnGrid(v: real, scale: real) {
    Whole(v * scale)
  }

  /** `v` has at most `places` decimal places: `v * 10^places` is whole. */
  predicate IsMultiple(v: real, places: nat) {
    OnGrid(v, Pow10(places))
  }

  /** Math.floor(v * scale) / scale for a positive scale: the largest multiple
      of 1/scale that does not exceed `v` (see TruncateWhole, TruncateAtLeast). */
  function Truncate(v: real, scale: real): (u: real)
    requires scale > 0.0
    ensures u <= v < u + 1.0 / scale
  {
    var k := (v * scale).Floor;
    TruncateFacts(v, scale, k, k as real / scale);
    k as real / scale
  }

  lemma TruncateFacts(v: real, scale: real, k: int, u: real)
    requires scale > 0.0 && k == (v * scale).Floor && u == k as real / scale
    ensures OnGrid(u, scale) && u * scale == k as real
    ensures u <= v < u + 1.0 / scale
  {
    Cancel(k as real, scale, u);
    Cancel(1.0, scale, 1.0 / scale);
    assert (k as real).Floor == k;
    AddScaled(u, 1.0 / scale, scale);
    Scale(u, v, scale);
    Scale(v, u + 1.0 / scale, scale);
  }

  /** Truncate(v, scale) is a whole number of 1/scale steps: the floor of
      v * scale. */
  lemma TruncateWhole(v: real, scale: real)
    requires scale > 0.0
    ensures OnGrid(Truncate(v, scale), scale)
    ensures Truncate(v, scale) * scale == (v * scale).Floor as real
  {
    TruncateFacts(v, scale, (v * scale).Floor, Truncate(v, scale));
  }

  /** Math.floor(v * 10^places) / 10^places. */
  function FloorToPlaces(v: real, places: nat): (u: real)
    ensures IsMultiple(u, places)
    ensures u <= v < u + 1.0 / Pow10(places)
  {
    TruncateWhole(v, Pow10(places));
    Truncate(v, Pow10(places))
  }

  lemma MulMonotone(a: real, b: real, c: real)
    requires a > 0.0 && b > c
    ensures a * b > a * c
  {
  }

  lemma Cancel(a: real, p: real, q: real)
    requires p > 0.0 && q == a / p
    ensures q * p == a
  {
  }

  lemma AddScaled(a: real, b: real, p: real)
    ensures (a + b) * p == a * p + b * p
  {
  }

  /** Multiplying by a positive factor preserves order. */
  lemma Scale(a: real, b: real, p: real)
    requires p > 0.0
    ensures a <= b <==> a * p <= b * p
    ensures a < b <==> a * p < b * p
  {
    if a < b { MulMonotone(p, b, a); }
    else if b < a { MulMonotone(p, a, b); }
  }

  /** An integer at or below `b` is at or below its floor. */
  lemma FloorAtLeast(m: int, b: real)
    requires m as real <= b
    ensures m <= b.Floor
  {
    assert b < b.Floor as real + 1.0;
    assert (m as real) < (b.Floor + 1) as real;
  }

  /** A multiple of 1/scale not above `v` is not above Truncate(v, scale). */
  lemma TruncateAtLeast(w: real, v: real, scale: real)
    requires scale > 0.0 && OnGrid(w, scale) && w <= v
    ensures w <= Truncate(v, scale)
  {
    TruncateWhole(v, scale);
    Scale(w, v, scale);
    FloorAtLeast((w * scale).Floor, v * scale);
    Scale(w, Truncate(v, scale), scale);
  }

  /** Truncate(v, scale) is the only multiple of 1/scale in (v - 1/scale, v]. */
  lemma TruncateUnique(v: real, scale: real, w: real)
    requires scale > 0.0 && OnGrid(w, scale)
    requires w <= v < w + 1.0 / scale
    ensures w == Truncate(v, scale)
  {
    TruncateAtLeast(w, v, scale);
    TruncateWhole(v, scale);
    if w < Truncate(v, scale) {
      // two distinct multiples of 1/scale lie a whole step apart
      StepApart(w, Truncate(v, scale), scale);
      assert false;
    }
  }

  /** Of two distinct multiples of 1/scale, the larger is at least one step
      above the smaller. */
  lemma StepApart(w: real, u: real, scale: real)
    requires scale > 0.0 && OnGrid(w, scale) && OnGrid(u, scale) && w < u
    ensures w + 1.0 / scale <= u
  {
    Scale(w, u, scale);
    assert (w * scale).Floor + 1 <= (u * scale).Floor;
    NextStep(w, scale);
    Scale(w + 1.0 / scale, u, scale);
  }

  /** One step of 1/scale adds one to the scaled value. */
  lemma NextStep(w: real, scale: real)
    requires scale > 0.0
    ensures (w + 1.0 / scale) * scale == w * scale + 1.0
  {
    Cancel(1.0, scale, 1.0 / scale);
    AddScaled(w, 1.0 / scale, scale);
  }

  /** FloorToPlaces is the only multiple of 10^-places in (v - 10^-places, v]. */
  lemma FloorToPlacesUnique(v: real, places: nat, w: real)
    requires IsMultiple(w, places)
    requires w <= v < w + 1.0 / Pow10(places)
    ensures w == FloorToPlaces(v, places)
  {
    TruncateUnique(v, Pow10(places), w);
  }

  /** A multiple of 10^-places negated is still one. */
  lemma NegateMultiple(v: real, places: nat)
    requires IsMultiple(v, places)
    ensures IsMultiple(-v, places)
  {
    NegateOnGrid(v, Pow10(places));
  }

  lemma NegateOnGrid(v: real, scale: real)
    requires OnGrid(v, scale)
    ensures OnGrid(-v, scale)
  {
    Negate(v, scale);
    NegateWhole(v * scale);
  }

  lemma Negate(a: real, p: real)
    ensures -a * p == -(a * p)
  {
  }

  lemma NegateWhole(x: real)
    requires Whole(x)
    ensures Whole(-x)
  {
    var k := x.Floor;
    assert (-(k as real)).Floor == -k;
  }

  /** The range randInRange draws from: [min, max], or [-|min|, |min|] when
      max is omitted (JavaScript's `max = null`). */
  function Bounds(min: real, max: Option<real>): (b: (real, real))
    ensures max.None? ==> b.0 == -Abs(min) && b.1 == Abs(min) && b.0 <= b.1
    ensures max.Some? ==> b == (min, max.value)
  {
    match max
    case None => (-Abs(min), Abs(min))
    case Some(m) => (min, m)
  }

  /** Math.random() * (hi - lo) + lo for a draw in [0, 1): it lies between the
      bounds, never reaching the second unless they coincide. */
  function Draw(lo: real, hi: real, draw: real): (x: real)
    requires 0.0 <= draw < 1.0
    ensures lo <= hi ==> lo <= x <= hi && (lo < hi ==> x < hi)
    ensures hi <= lo ==> hi <= x <= lo && (hi < lo ==> hi < x)
  {
    DrawBetween(lo, hi, draw);
    draw * (hi - lo) + lo
  }

  lemma DrawBetween(lo: real, hi: real, draw: real)
    requires 0.0 <= draw < 1.0
    ensures lo < hi ==> 0.0 <= draw * (hi - lo) < hi - lo
    ensures hi < lo ==> hi - lo < draw * (hi - lo) <= 0.0
  {
    Distribute(draw, hi, lo);
    if lo < hi {
      BelowSpan(draw, hi, lo);
    } else if hi < lo {
      BelowSpan(draw, lo, hi);
    }
  }

  lemma Distribute(a: real, b: real, c: real)
    ensures a * (b - c) == a * b - a * c
  {
  }

  /** A fraction in [0, 1) of a positive span is less than the span. */
  lemma BelowSpan(draw: real, hi: real, lo: real)
    requires 0.0 <= draw < 1.0 && lo < hi
    ensures 0.0 <= draw * hi - draw * lo < hi - lo
  {
    var rest := 1.0 - draw;
    MulMonotone(rest, hi, lo);
    assert rest * hi - rest * lo == (hi - lo) - (draw * hi - draw * lo);
    if draw > 0.0 { MulMonotone(draw, hi, lo); }
  }

  /** randInRange(min, max, randomizeSign, places). `draw` stands for the
      first Math.random() call and `signDraw` for the second, which the source
      only makes when randomizeSign is set. Unsigned, the value is the draw
      truncated to `places` decimals: within 10^-places below the draw. */
  function RandInRange(min: real, max: Option<real>, randomizeSign: bool, places: nat,
                       draw: real, signDraw: real): (r: real)
    requires 0.0 <= draw < 1.0 && 0.0 <= signDraw < 1.0
    ensures var x := Draw(Bounds(min, max).0, Bounds(min, max).1, draw);
      var u := if !randomizeSign || signDraw > 0.5 then r else -r;
      u <= x < u + 1.0 / Pow10(places)
  {
    var (lo, hi) := Bounds(min, max);
    var number := FloorToPlaces(Draw(lo, hi, draw), places);
    if randomizeSign && !(signDraw - 0.5 > 0.0) then -number else number
  }

  /** The result always has at most `places` decimal places. */
  lemma RandInRangeIsMultiple(min: real, max: Option<real>, randomizeSign: bool, places: nat,
                              draw: real, signDraw: real)
    requires 0.0 <= draw < 1.0 && 0.0 <= signDraw < 1.0
    ensures IsMultiple(RandInRange(min, max, randomizeSign, places, draw, signDraw), places)
  {
    var (lo, hi) := Bounds(min, max);
    NegateMultiple(FloorToPlaces(Draw(lo, hi, draw), places), places);
  }

  /** Sign randomization only negates: the signed result is the unsigned one,
      negated exactly when the second draw is at most one half. */
  lemma RandInRangeSignOnlyNegates(min: real, max: Option<real>, places: nat,
                                   draw: real, signDraw: real)
    requires 0.0 <= draw < 1.0 && 0.0 <= signDraw < 1.0
    ensures var unsigned := RandInRange(min, max, false, places, draw, signDraw);
      RandInRange(min, max, true, places, draw, signDraw)
        == if signDraw > 0.5 then unsigned else -unsigned
  {
  }

  /** With an ordered range whose lower end has at most `places` decimals,
      the unsigned value stays inside the range. */
  lemma RandInRangeWithin(min: real, max: Option<real>, places: nat, draw: real, signDraw: real)
    requires 0.0 <= draw < 1.0 && 0.0 <= signDraw < 1.0
    requires Bounds(min, max).0 <= Bounds(min, max).1
    requires IsMultiple(Bounds(min, max).0, places)
    ensures Bounds(min, max).0 <= RandInRange(min, max, false, places, draw, signDraw) <= Bounds(min, max).1
  {
    var (lo, hi) := Bounds(min, max);
    var x := Draw(lo, hi, draw);
    var u := RandInRange(min, max, false, places, draw, signDraw);
    // lo is a multiple of 10^-places not above x, and u is the largest such
    TruncateAtLeast(lo, x, Pow10(places));
  }

  /** With max omitted the value, sign-randomized or not, lies in
      [-|min|, |min|] when |min| has at most `places` decimals. */
  lemma RandInRangeSymmetric(min: real, randomizeSign: bool, places: nat, draw: real, signDraw: real)
    requires 0.0 <= draw < 1.0 && 0.0 <= signDraw < 1.0
    requires IsMultiple(Abs(min), places)
    ensures -Abs(min) <= RandInRange(min, None, randomizeSign, places, draw, signDraw) <= Abs(min)
  {
    NegateMultiple(Abs(min), places);
    RandInRangeWithin(min, None, places, draw, signDraw);
  }

  /** randInRange(1, 3, false, 3) lies in [1, 3]; randInRange(5, null, true, 3)
      lies in [-5, 5]. */
  lemma RandInRangeExamples(draw: real, signDraw: real)
    requires 0.0 <= draw < 1.0 && 0.0 <= signDraw < 1.0
    ensures 1.0 <= RandInRange(1.0, Some(3.0), false, 3, draw, signDraw) <= 3.0
    ensures -5.0 <= RandInRange(5.0, None, true, 3, draw, signDraw) <= 5.0
  {
    assert Pow10(3) == 1000.0;
    assert IsMultiple(1.0, 3);
    assert IsMultiple(5.0, 3);
    RandInRangeWithin(1.0, Some(3.0), 3, draw, signDraw);
    RandInRangeSymmetric(5.0, true, 3, draw, signDraw);
  }

  /** mergeObj(...objects), i.e. Object.assign({}, ...objects): a fresh object
      holding every key of every argument, the last argument that has a key
      deciding its value. */
  function MergeObj<K(!new), V>(objects: seq<map<K, V>>): (r: map<K, V>)
    ensures forall k :: k in r <==> exists i :: 0 <= i < |objects| && k in objects[i]
    ensures forall i, k :: 0 <= i < |objects| && k in objects[i]
                           && (forall j :: i < j < |objects| ==> k !in objects[j])
                           ==> k in r && r[k] == objects[i][k]
  {
    if |objects| == 0 then map[]
    else
      var n := |objects| - 1;
      var prefix := MergeObj(objects[..n]);
      assert forall i :: 0 <= i < n ==> objects[..n][i] == objects[i];
      prefix + objects[n]
  }

  /** Configuration merged over defaults: a configured key wins, a key only in
      the defaults keeps its default, and nothing else appears. */
  lemma MergeOverDefaults<K(!new), V>(defaults: map<K, V>, config: map<K, V>)
    ensures MergeObj([defaults, config]).Keys == defaults.Keys + config.Keys
    ensures forall k :: k in config ==> MergeObj([defaults, config])[k] == config[k]
    ensures forall k :: k in defaults && k !in config ==> MergeObj([defaults, config])[k] == defaults[k]
  {
    var objs := [defaults, config];
    assert forall k :: k in config ==> k in objs[1];
    assert forall k :: k in defaults ==> k in objs[0];
  }
}
