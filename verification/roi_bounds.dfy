/** The region-of-interest arithmetic of `get_rectangle_bounds`: the per-slice
    plug boxes found by circle detection are intersected, shrunk by a tolerance,
    centre-cropped to a square, and given a Z range by one of two policies. */
module RoiBounds {
  import opened Common

  /** A shapely box in shapely's order: first axis (min0, max0), second axis
      (min1, max1). `box(x0, y0, x1, y1)` reports bounds with min <= max. */
  datatype Box = Box(min0: int, min1: int, max0: int, max1: int)

  predicate WellFormed(b: Box) {
    b.min0 <= b.max0 && b.min1 <= b.max1
  }

  /** The boxes shapely can hold: the detector builds each one from a circle
      centre plus and minus radius/sqrt(2), so its bounds are ordered. */
  type PlugBox = b: Box | WellFormed(b) witness Box(0, 0, 0, 0)

  predicate Inside(inner: Box, outer: Box) {
    && outer.min0 <= inner.min0 && inner.max0 <= outer.max0
    && outer.min1 <= inner.min1 && inner.max1 <= outer.max1
  }

  /** shapely's `a.intersection(b)` for two boxes: the largest box inside both,
      or nothing when they share no point. */
  function Intersect(a: PlugBox, b: PlugBox): (r: Option<PlugBox>)
    ensures r.Some? ==> Inside(r.value, a) && Inside(r.value, b)
    ensures r.Some? ==> forall c: PlugBox :: Inside(c, a) && Inside(c, b) ==> Inside(c, r.value)
    ensures r.None? <==> !exists c: PlugBox :: Inside(c, a) && Inside(c, b)
  {
    var c := Box(Max(a.min0, b.min0), Max(a.min1, b.min1), Min(a.max0, b.max0), Min(a.max1, b.max1));
    if WellFormed(c) then Some(c) else None
  }

  /** `c` lies inside every box of `boxes`. */
  predicate InsideAll(c: Box, boxes: seq<PlugBox>) {
    forall i :: 0 <= i < |boxes| ==> Inside(c, boxes[i])
  }

  lemma InsideAllSplit(c: Box, boxes: seq<PlugBox>)
    requires |boxes| > 0
    ensures InsideAll(c, boxes) <==> InsideAll(c, boxes[..|boxes| - 1]) && Inside(c, boxes[|boxes| - 1])
  {
    var front := boxes[..|boxes| - 1];
    if InsideAll(c, front) && Inside(c, boxes[|boxes| - 1]) {
      forall i | 0 <= i < |boxes|
        ensures Inside(c, boxes[i])
      {
        if i < |front| {
          assert boxes[i] == front[i];
        }
      }
    }
  }

  /** Lines 139-142: start from the first detected box and intersect the rest in
      order. No box at all makes `plug_rectangles[0]` fail. */
  function IntersectAll(boxes: seq<PlugBox>): (r: Result<PlugBox>)
    ensures r == Err(NoBoxDetected) <==> |boxes| == 0
    ensures r.Ok? ==> InsideAll(r.value, boxes)
    ensures r.Ok? ==> forall c: PlugBox :: InsideAll(c, boxes) ==> Inside(c, r.value)
    ensures r.Err? && |boxes| > 0 ==> r.error == EmptyIntersection
    ensures r.Err? && |boxes| > 0 ==> !exists c: PlugBox :: InsideAll(c, boxes)
  {
    if |boxes| == 0 then Err(NoBoxDetected)
    else if |boxes| == 1 then Ok(boxes[0])
    else
      var front := boxes[..|boxes| - 1];
      var last := boxes[|boxes| - 1];
      assert forall c: PlugBox :: InsideAll(c, boxes) <==> InsideAll(c, front) && Inside(c, last) by {
        forall c: PlugBox {
          InsideAllSplit(c, boxes);
        }
      }
      match IntersectAll(front)
      case Err(e) => Err(e)
      case Ok(acc) =>
        match Intersect(acc, last)
        case None => Err(EmptyIntersection)
        case Some(b) => Ok(b)
  }

  /** Lines 143-148: shapely's first axis becomes the y interval and the second
      the x interval, each shrunk by `tol` on both sides. */
  datatype Square = Square(xIni: int, xFin: int, yIni: int, yFin: int)

  function Shrink(b: Box, tol: int): (s: Square)
    ensures s.yFin - s.yIni == b.max0 - b.min0 - 2 * tol
    ensures s.xFin - s.xIni == b.max1 - b.min1 - 2 * tol
    ensures s.yIni == b.min0 + tol && s.xIni == b.min1 + tol
  {
    Square(b.min1 + tol, b.max1 - tol, b.min0 + tol, b.max0 - tol)
  }

  /** Lines 150-153 for one axis: remove `floor(d/2)` at the start and `ceil(d/2)`
      at the end, where d is the excess over `side`. */
  function CenterCrop(lo: int, hi: int, side: int): (r: (int, int))
    requires side <= hi - lo
    ensures r.1 - r.0 == side
    ensures lo <= r.0 && r.1 <= hi
    ensures r.0 - lo <= hi - r.1 <= r.0 - lo + 1
  {
    var d := hi - lo - side;
    (lo + d / 2, hi - (d + 1) / 2)
  }

  function SideOf(s: Square): int {
    Min(s.yFin - s.yIni, s.xFin - s.xIni)
  }

  /** Lines 146-153: the shrunk box cut down to a square of side `mindif`, each
      new interval inside its shrunk interval. */
  function SquareUp(s: Square): (q: Square)
    ensures q.xFin - q.xIni == SideOf(s) && q.yFin - q.yIni == SideOf(s)
    ensures SideOf(s) == s.xFin - s.xIni || SideOf(s) == s.yFin - s.yIni
    ensures s.xIni <= q.xIni && q.xFin <= s.xFin
    ensures s.yIni <= q.yIni && q.yFin <= s.yFin
    ensures q.xIni - s.xIni <= s.xFin - q.xFin <= q.xIni - s.xIni + 1
    ensures q.yIni - s.yIni <= s.yFin - q.yFin <= q.yIni - s.yIni + 1
  {
    var side := SideOf(s);
    var (xi, xf) := CenterCrop(s.xIni, s.xFin, side);
    var (yi, yf) := CenterCrop(s.yIni, s.yFin, side);
    Square(xi, xf, yi, yf)
  }

  /** Lines 155-162: a Z range of extent `side` around `middle`, the extra slice of
      an odd side going to the top. */
  function CentredZ(middle: int, side: int): (z: (int, int))
    ensures z.1 - z.0 == side
    ensures middle - z.0 == side / 2 && z.1 - middle == side - side / 2
  {
    var halfdif := side / 2;
    if side % 2 == 0 then (middle - halfdif, middle + halfdif)
    else (middle - halfdif, middle + halfdif + 1)
  }

  /** The bounds the function returns. The Z ends are reals because the automatic
      policy mixes the integer centred range with `0.1*depth` and `0.9*depth`. */
  datatype Bounds = Bounds(zIni: real, zFin: real, xIni: int, xFin: int, yIni: int, yFin: int)

  /** Lines 164-195: the Z-resolution policy. Explicit `z_ini`/`z_fin` (both
      given) are checked against the side and returned unchanged; otherwise the
      range is widened from the centred range to at least 10%..90% of depth. */
  function ResolveZ(depth: nat, zIni: Option<int>, zFin: Option<int>, side: int): (r: Result<(real, real)>)
    ensures r.Err? ==> r.error == SampleTooSmall
    ensures zIni.Some? && zFin.Some? ==>
              && (r.Err? <==> zFin.value - zIni.value < side)
              && (r.Ok? ==> r.value == (zIni.value as real, zFin.value as real))
    ensures !(zIni.Some? && zFin.Some?) ==>
              var (zi, zf) := CentredZ(depth / 2, side);
              && r.Ok?
              && r.value.0 == MinReal(depth as real / 10.0, zi as real)
              && r.value.1 == MaxReal(9.0 * depth as real / 10.0, zf as real)
              && r.value.0 <= zi as real && zf as real <= r.value.1
              && r.value.0 <= depth as real / 10.0 && 9.0 * depth as real / 10.0 <= r.value.1
  {
    var (zi, zf) := CentredZ(depth / 2, side);
    if zIni.Some? && zFin.Some? then
      if zFin.value - zIni.value < side then Err(SampleTooSmall)
      else Ok((zIni.value as real, zFin.value as real))
    else if zf - zi < side then Err(SampleTooSmall)
    else
      var autoIni := depth as real / 10.0;
      var autoFin := 9.0 * depth as real / 10.0;
      var lo := if zi as real <= autoIni then zi as real else autoIni;
      var hi := if zf as real >= autoFin then zf as real else autoFin;
      if hi - lo < side as real then Err(SampleTooSmall)
      else Ok((lo, hi))
  }

  /** `get_rectangle_bounds` from line 139 on, with the per-slice boxes of the
      circle detection (lines 93-137) as input. */
  function RectangleBounds(depth: nat, boxes: seq<PlugBox>, zIni: Option<int>, zFin: Option<int>, tol: int): (r: Result<Bounds>)
    ensures r == Err(NoBoxDetected) <==> |boxes| == 0
    ensures r.Ok? ==> r.value.xFin - r.value.xIni == r.value.yFin - r.value.yIni
    ensures r.Ok? ==> forall i :: 0 <= i < |boxes| ==>
              && boxes[i].min0 + tol <= r.value.yIni && r.value.yFin <= boxes[i].max0 - tol
              && boxes[i].min1 + tol <= r.value.xIni && r.value.xFin <= boxes[i].max1 - tol
    ensures r.Ok? ==> r.value.zFin - r.value.zIni >= (r.value.xFin - r.value.xIni) as real
    ensures r.Ok? && !(zIni.Some? && zFin.Some?) ==>
              r.value.zIni <= depth as real / 10.0 && 9.0 * depth as real / 10.0 <= r.value.zFin
    ensures r.Ok? && zIni.Some? && zFin.Some? ==>
              r.value.zIni == zIni.value as real && r.value.zFin == zFin.value as real
    ensures r == Err(SampleTooSmall) ==> zIni.Some? && zFin.Some?
    ensures zIni.Some? && zFin.Some? && IntersectAll(boxes).Ok? ==>
              (r.Err? <==> zFin.value - zIni.value < SideOf(Shrink(IntersectAll(boxes).value, tol)))
    ensures r.Ok? ==> IntersectAll(boxes).Ok?
    ensures IntersectAll(boxes).Ok? ==>
              var s := Shrink(IntersectAll(boxes).value, tol);
              && (r.Ok? <==> ResolveZ(depth, zIni, zFin, SideOf(s)).Ok?)
              && (r.Ok? ==>
                    && r.value.xFin - r.value.xIni == SideOf(s)
                    && r.value.xIni - s.xIni <= s.xFin - r.value.xFin <= r.value.xIni - s.xIni + 1
                    && r.value.yIni - s.yIni <= s.yFin - r.value.yFin <= r.value.yIni - s.yIni + 1
                    && ResolveZ(depth, zIni, zFin, SideOf(s)) == Ok((r.value.zIni, r.value.zFin)))
  {
    var inter :- IntersectAll(boxes);
    var shrunk := Shrink(inter, tol);
    var sq := SquareUp(shrunk);
    var (zLo, zHi) :- ResolveZ(depth, zIni, zFin, sq.xFin - sq.xIni);
    Ok(Bounds(zLo, zHi, sq.xIni, sq.xFin, sq.yIni, sq.yFin))
  }

  /** With no clamp, an automatic range can start below slice 0: a 100-slice
      volume whose square side is 106 gets the range [-3, 103]. */
  lemma ZIniCanBeNegative()
    ensures ResolveZ(100, None, None, 106) == Ok((-3.0, 103.0))
  {
    assert CentredZ(50, 106) == (-3, 103);
  }
}
