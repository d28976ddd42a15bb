/** Bounding-rectangle geometry of the interactive (src/scripts/utils.js).

    A rectangle carries the eight fields a layout query reports plus the four
    derived fields that normalization writes: the centre (`cx`, `cy`) and the
    half-extents. The derived fields are recomputed from `x`, `y`, `width`
    and `height` only; whatever they held before is overwritten. */
module Geometry {

  datatype Rect = Rect(
    x: real, y: real, width: real, height: real,
    top: real, right: real, bottom: real, left: real,
    cx: real, cy: real, halfWidth: real, halfHeight: real)

  /** The invariant normalization establishes: centre and half-extents agree
      with the base fields. */
  predicate IsNormalized(r: Rect) {
    && r.halfWidth == r.width / 2.0
    && r.halfHeight == r.height / 2.0
    && r.cx == r.x + r.halfWidth
    && r.cy == r.y + r.halfHeight
  }

  /** `a` and `b` agree on the eight base fields. */
  predicate SameBase(a: Rect, b: Rect) {
    && a.x == b.x && a.y == b.y && a.width == b.width && a.height == b.height
    && a.top == b.top && a.right == b.right && a.bottom == b.bottom && a.left == b.left
  }

  /** normalizeBoundingRect: keeps the base fields and rewrites the derived ones. */
  function Normalize(r: Rect): (n: Rect)
    ensures SameBase(n, r)
    ensures IsNormalized(n)
    ensures n.cx - n.x == n.width / 2.0 && n.cy - n.y == n.height / 2.0
  {
    r.(cx := r.x + r.width / 2.0, cy := r.y + r.height / 2.0,
       halfWidth := r.width / 2.0, halfHeight := r.height / 2.0)
  }

  /** Normalization depends on the base fields alone. */
  lemma NormalizeDependsOnBase(a: Rect, b: Rect)
    ensures SameBase(a, b) <==> Normalize(a) == Normalize(b)
  {
    if Normalize(a) == Normalize(b) {
      assert SameBase(Normalize(a), a) && SameBase(Normalize(b), b);
    }
  }

  /** A rectangle is a fixed point of normalization exactly when it is normalized. */
  lemma NormalizeFixedPoint(r: Rect)
    ensures Normalize(r) == r <==> IsNormalized(r)
  {
  }

  /** Normalizing twice is the same as normalizing once. */
  lemma NormalizeIdempotent(r: Rect)
    ensures Normalize(Normalize(r)) == Normalize(r)
  {
    NormalizeFixedPoint(Normalize(r));
  }

  /** transformBoundingRect(ref, target): the six position fields of `target`
      minus those of `ref`, the size of `target`, normalized. */
  function Transform(ref: Rect, target: Rect): (t: Rect)
    ensures t.x == target.x - ref.x && t.y == target.y - ref.y
    ensures t.top == target.top - ref.top && t.right == target.right - ref.right
    ensures t.bottom == target.bottom - ref.bottom && t.left == target.left - ref.left
    ensures t.width == target.width && t.height == target.height
    ensures IsNormalized(t)
  {
    Normalize(target.(x := target.x - ref.x, y := target.y - ref.y,
                      top := target.top - ref.top, right := target.right - ref.right,
                      bottom := target.bottom - ref.bottom, left := target.left - ref.left))
  }

  /** When the target is normalized, its centre moves by the reference's origin
      and its half-extents are kept. */
  lemma TransformCentre(ref: Rect, target: Rect)
    requires IsNormalized(target)
    ensures Transform(ref, target).cx == target.cx - ref.x
    ensures Transform(ref, target).cy == target.cy - ref.y
    ensures Transform(ref, target).halfWidth == target.halfWidth
    ensures Transform(ref, target).halfHeight == target.halfHeight
  {
  }

  /** A rectangle expressed relative to itself sits at the origin. */
  lemma TransformSelf(r: Rect)
    ensures var t := Transform(r, r);
      t.x == 0.0 && t.y == 0.0 && t.top == 0.0 && t.right == 0.0 && t.bottom == 0.0 && t.left == 0.0
  {
  }

  /** Adds `ref`'s position fields back onto a relative rectangle. */
  function Untransform(ref: Rect, rel: Rect): Rect
  {
    Normalize(rel.(x := rel.x + ref.x, y := rel.y + ref.y,
                   top := rel.top + ref.top, right := rel.right + ref.right,
                   bottom := rel.bottom + ref.bottom, left := rel.left + ref.left))
  }

  /** Expressing a rectangle relative to `ref` loses nothing but its stale
      derived fields: adding `ref` back gives the normalized original. */
  lemma TransformRoundTrip(ref: Rect, target: Rect)
    ensures Untransform(ref, Transform(ref, target)) == Normalize(target)
  {
  }

  /** Relative positions do not depend on the common frame they were measured in:
      re-expressing two rectangles measured from `origin` relative to one another
      is the same as relating the originals directly. */
  lemma TransformCommonFrame(origin: Rect, a: Rect, b: Rect)
    ensures Transform(Transform(origin, a), Transform(origin, b)) == Transform(a, b)
  {
  }
}
