/** Back-projection of one RGB-D frame through pinhole intrinsics into a coloured point cloud. */
module BackProjection {
  import opened Geometry
  import opened CloudTypes

  /** A colour image, a depth image with every pixel position of the colour image and,
      optionally, a mask with every such position too; the loops run over the colour image. */
  predicate FrameValid(color: Image<Rgb>, depth: Image<int>, mask: Option<Image<int>>) {
    color.Valid() && depth.Valid() && Covers(depth, color) &&
    (mask.Some? ==> mask.value.Valid() && Covers(mask.value, color))
  }

  predicate InGrid(color: Image<Rgb>, p: Pixel) {
    p.u < color.width && p.v < color.height
  }

  /** Row-major order of the pixel loops: v outer, u inner. */
  predicate RowMajorBefore(p: Pixel, q: Pixel) {
    p.v < q.v || (p.v == q.v && p.u < q.u)
  }

  /** Z: the raw depth at (u, v) times the scaling factor. */
  function ScaledDepth(depth: Image<int>, camera: Camera, u: nat, v: nat): real
    requires depth.Valid() && u < depth.width && v < depth.height
  {
    depth.At(u, v) as real * camera.scalingfactor
  }

  /** A pixel yields a point unless its scaled depth is 0 or the mask, when there is one, is 0 there.
      The scaled depth is a product, so it is 0 exactly when the raw depth or the factor is
      (ScaledDepthZero); the test is written in that form. */
  predicate Keeps(color: Image<Rgb>, depth: Image<int>, mask: Option<Image<int>>, camera: Camera, u: nat, v: nat)
    requires FrameValid(color, depth, mask) && u < color.width && v < color.height
  {
    depth.At(u, v) != 0 && camera.scalingfactor != 0.0 && (mask.None? || mask.value.At(u, v) != 0)
  }

  /** Pixel p lies in the grid and yields a point. */
  predicate KeptAt(color: Image<Rgb>, depth: Image<int>, mask: Option<Image<int>>, camera: Camera, p: Pixel)
    requires FrameValid(color, depth, mask)
  {
    InGrid(color, p) && Keeps(color, depth, mask, camera, p.u, p.v)
  }

  lemma ScaledDepthZero(depth: Image<int>, camera: Camera, u: nat, v: nat)
    requires depth.Valid() && u < depth.width && v < depth.height
    ensures ScaledDepth(depth, camera, u, v) == 0.0 <==> depth.At(u, v) == 0 || camera.scalingfactor == 0.0
  {
    if depth.At(u, v) != 0 && camera.scalingfactor != 0.0 {
      assert depth.At(u, v) as real != 0.0;
    }
  }

  /** The kept pixels (0, v) .. (u - 1, v), left to right. */
  function KeptInRow(color: Image<Rgb>, depth: Image<int>, mask: Option<Image<int>>, camera: Camera, v: nat, u: nat): (row: seq<Pixel>)
    requires FrameValid(color, depth, mask) && v < color.height && u <= color.width
    ensures forall i :: 0 <= i < |row| ==> row[i].v == v && row[i].u < u
  {
    if u == 0 then []
    else
      KeptInRow(color, depth, mask, camera, v, u - 1) +
      (if Keeps(color, depth, mask, camera, u - 1, v) then [Pixel(u - 1, v)] else [])
  }

  /** The kept pixels of rows 0 .. v - 1, in the order the loops visit them. */
  function KeptInRows(color: Image<Rgb>, depth: Image<int>, mask: Option<Image<int>>, camera: Camera, v: nat): (rows: seq<Pixel>)
    requires FrameValid(color, depth, mask) && v <= color.height
    ensures forall i :: 0 <= i < |rows| ==> InGrid(color, rows[i]) && rows[i].v < v
  {
    if v == 0 then []
    else KeptInRows(color, depth, mask, camera, v - 1) + KeptInRow(color, depth, mask, camera, v - 1, color.width)
  }

  function KeptPixels(color: Image<Rgb>, depth: Image<int>, mask: Option<Image<int>>, camera: Camera): seq<Pixel>
    requires FrameValid(color, depth, mask)
  {
    KeptInRows(color, depth, mask, camera, color.height)
  }

  /** The pinhole formula: Z from the depth image, X = (u - cx) Z / fx, Y = (v - cy) Z / fy,
      coloured with the colour pixel at (u, v). */
  function CameraPoint(color: Image<Rgb>, depth: Image<int>, camera: Camera, p: Pixel): Point
    requires color.Valid() && depth.Valid() && Covers(depth, color) && InGrid(color, p) && camera.Valid()
  {
    var z := ScaledDepth(depth, camera, p.u, p.v);
    Point(Vec3((p.u as real - camera.cx) * z / camera.fx, (p.v as real - camera.cy) * z / camera.fy, z),
          color.At(p.u, p.v))
  }

  function Project(color: Image<Rgb>, depth: Image<int>, camera: Camera, pixels: seq<Pixel>): seq<Point>
    requires color.Valid() && depth.Valid() && Covers(depth, color) && camera.Valid()
    requires forall i :: 0 <= i < |pixels| ==> InGrid(color, pixels[i])
  {
    seq(|pixels|, i requires 0 <= i < |pixels| => CameraPoint(color, depth, camera, pixels[i]))
  }

  /** The camera-frame cloud of one frame: one point per kept pixel, in loop order; no point
      lies at depth 0. */
  function FrameCloud(color: Image<Rgb>, depth: Image<int>, mask: Option<Image<int>>, camera: Camera): (cloud: seq<Point>)
    requires FrameValid(color, depth, mask) && camera.Valid()
    ensures |cloud| == |KeptPixels(color, depth, mask, camera)|
    ensures forall j :: 0 <= j < |cloud| ==> cloud[j].pos.z != 0.0
  {
    KeptHaveDepth(color, depth, mask, camera);
    Project(color, depth, camera, KeptPixels(color, depth, mask, camera))
  }

  lemma KeptHaveDepth(color: Image<Rgb>, depth: Image<int>, mask: Option<Image<int>>, camera: Camera)
    requires FrameValid(color, depth, mask) && camera.Valid()
    ensures var kept := KeptPixels(color, depth, mask, camera);
            forall j :: 0 <= j < |kept| ==> Project(color, depth, camera, kept)[j].pos.z != 0.0
  {
    KeptInRowsSound(color, depth, mask, camera, color.height);
    var kept := KeptPixels(color, depth, mask, camera);
    assert kept == KeptInRows(color, depth, mask, camera, color.height);
    forall j | 0 <= j < |kept| ensures Project(color, depth, camera, kept)[j].pos.z != 0.0 {
      ScaledDepthZero(depth, camera, kept[j].u, kept[j].v);
    }
  }

  /** The bare coordinates of a cloud, index by index. */
  function Positions(cloud: seq<Point>): seq<Vec3> {
    seq(|cloud|, j requires 0 <= j < |cloud| => cloud[j].pos)
  }

  lemma PositionsSnoc(cloud: seq<Point>, q: Point)
    ensures Positions(cloud + [q]) == Positions(cloud) + [q.pos]
  {
  }

  lemma ProjectSnoc(color: Image<Rgb>, depth: Image<int>, camera: Camera, pixels: seq<Pixel>, p: Pixel)
    requires color.Valid() && depth.Valid() && Covers(depth, color) && camera.Valid()
    requires forall i :: 0 <= i < |pixels| ==> InGrid(color, pixels[i])
    requires InGrid(color, p)
    ensures Project(color, depth, camera, pixels + [p]) ==
            Project(color, depth, camera, pixels) + [CameraPoint(color, depth, camera, p)]
  {
  }

  /** The kept pixels the loops have visited before reaching (u, v). */
  function Visited(color: Image<Rgb>, depth: Image<int>, mask: Option<Image<int>>, camera: Camera, v: nat, u: nat): (seen: seq<Pixel>)
    requires FrameValid(color, depth, mask) && v <= color.height && u <= color.width
    requires v == color.height ==> u == 0
    ensures forall i :: 0 <= i < |seen| ==> InGrid(color, seen[i])
  {
    KeptInRows(color, depth, mask, camera, v) + (if v < color.height then KeptInRow(color, depth, mask, camera, v, u) else [])
  }

  /** Visiting pixel (u, v) adds its point exactly when the pixel is kept. */
  lemma VisitPixel(color: Image<Rgb>, depth: Image<int>, mask: Option<Image<int>>, camera: Camera, v: nat, u: nat)
    requires FrameValid(color, depth, mask) && camera.Valid() && v < color.height && u < color.width
    ensures Project(color, depth, camera, Visited(color, depth, mask, camera, v, u + 1)) ==
            Project(color, depth, camera, Visited(color, depth, mask, camera, v, u)) +
            (if Keeps(color, depth, mask, camera, u, v) then [CameraPoint(color, depth, camera, Pixel(u, v))] else [])
  {
    var before := Visited(color, depth, mask, camera, v, u);
    assert Visited(color, depth, mask, camera, v, u + 1) ==
           before + (if Keeps(color, depth, mask, camera, u, v) then [Pixel(u, v)] else []);
    if Keeps(color, depth, mask, camera, u, v) {
      ProjectSnoc(color, depth, camera, before, Pixel(u, v));
    }
  }

  /** The end of row v is the start of row v + 1. */
  lemma NextRow(color: Image<Rgb>, depth: Image<int>, mask: Option<Image<int>>, camera: Camera, v: nat)
    requires FrameValid(color, depth, mask) && v < color.height
    ensures Visited(color, depth, mask, camera, v, color.width) == Visited(color, depth, mask, camera, v + 1, 0)
  {
    assert KeptInRows(color, depth, mask, camera, v + 1) ==
           KeptInRows(color, depth, mask, camera, v) + KeptInRow(color, depth, mask, camera, v, color.width);
    if v + 1 < color.height {
      assert KeptInRow(color, depth, mask, camera, v + 1, 0) == [];
    }
  }

  /** The arithmetic of the pixel loops is the pinhole formula of CameraPoint. */
  lemma PinholeAt(color: Image<Rgb>, depth: Image<int>, camera: Camera, u: nat, v: nat, x: real, y: real, z: real, c: Rgb)
    requires color.Valid() && depth.Valid() && Covers(depth, color) && camera.Valid()
    requires u < color.width && v < color.height
    requires z == depth.At(u, v) as real * camera.scalingfactor && c == color.At(u, v)
    requires x == (u as real - camera.cx) * z / camera.fx && y == (v as real - camera.cy) * z / camera.fy
    ensures Point(Vec3(x, y, z), c) == CameraPoint(color, depth, camera, Pixel(u, v))
  {
  }

  /** Every pixel listed is kept. */
  predicate AllKept(color: Image<Rgb>, depth: Image<int>, mask: Option<Image<int>>, camera: Camera, ps: seq<Pixel>)
    requires FrameValid(color, depth, mask)
  {
    forall i :: 0 <= i < |ps| ==> InGrid(color, ps[i]) && Keeps(color, depth, mask, camera, ps[i].u, ps[i].v)
  }

  /** The pixels are listed in strictly increasing row-major order (so none is listed twice). */
  predicate RowMajorSorted(ps: seq<Pixel>) {
    forall i, j :: 0 <= i < j < |ps| ==> RowMajorBefore(ps[i], ps[j])
  }

  lemma AllKeptAppend(color: Image<Rgb>, depth: Image<int>, mask: Option<Image<int>>, camera: Camera, a: seq<Pixel>, b: seq<Pixel>)
    requires FrameValid(color, depth, mask)
    requires AllKept(color, depth, mask, camera, a) && AllKept(color, depth, mask, camera, b)
    ensures AllKept(color, depth, mask, camera, a + b)
  {
    forall i | 0 <= i < |a + b|
      ensures InGrid(color, (a + b)[i]) && Keeps(color, depth, mask, camera, (a + b)[i].u, (a + b)[i].v)
    {
      if i < |a| {
        assert (a + b)[i] == a[i];
      } else {
        assert (a + b)[i] == b[i - |a|];
      }
    }
  }

  lemma SortedAppend(a: seq<Pixel>, b: seq<Pixel>)
    requires RowMajorSorted(a) && RowMajorSorted(b)
    requires forall i, j :: 0 <= i < |a| && 0 <= j < |b| ==> RowMajorBefore(a[i], b[j])
    ensures RowMajorSorted(a + b)
  {
    forall i, j | 0 <= i < j < |a + b| ensures RowMajorBefore((a + b)[i], (a + b)[j]) {
      if j < |a| {
        assert (a + b)[i] == a[i] && (a + b)[j] == a[j];
      } else if i < |a| {
        assert (a + b)[i] == a[i] && (a + b)[j] == b[j - |a|];
      } else {
        assert (a + b)[i] == b[i - |a|] && (a + b)[j] == b[j - |a|];
      }
    }
  }

  lemma InAppendLeft(a: seq<Pixel>, b: seq<Pixel>, p: Pixel)
    requires p in a
    ensures p in a + b
  {
    var i :| 0 <= i < |a| && a[i] == p;
    assert (a + b)[i] == p;
  }

  lemma InAppendRight(a: seq<Pixel>, b: seq<Pixel>, p: Pixel)
    requires p in b
    ensures p in a + b
  {
    var i :| 0 <= i < |b| && b[i] == p;
    assert (a + b)[|a| + i] == p;
  }

  /** Row v lists only kept pixels. */
  lemma {:induction false} KeptInRowSound(color: Image<Rgb>, depth: Image<int>, mask: Option<Image<int>>, camera: Camera, v: nat, u: nat)
    requires FrameValid(color, depth, mask) && v < color.height && u <= color.width
    ensures AllKept(color, depth, mask, camera, KeptInRow(color, depth, mask, camera, v, u))
    decreases u
  {
    if u > 0 {
      KeptInRowSound(color, depth, mask, camera, v, u - 1);
      var last := if Keeps(color, depth, mask, camera, u - 1, v) then [Pixel(u - 1, v)] else [];
      AllKeptAppend(color, depth, mask, camera, KeptInRow(color, depth, mask, camera, v, u - 1), last);
    }
  }

  /** Rows 0 .. v - 1 list only kept pixels. */
  lemma {:induction false} KeptInRowsSound(color: Image<Rgb>, depth: Image<int>, mask: Option<Image<int>>, camera: Camera, v: nat)
    requires FrameValid(color, depth, mask) && v <= color.height
    ensures AllKept(color, depth, mask, camera, KeptInRows(color, depth, mask, camera, v))
    decreases v
  {
    if v > 0 {
      KeptInRowsSound(color, depth, mask, camera, v - 1);
      KeptInRowSound(color, depth, mask, camera, v - 1, color.width);
      AllKeptAppend(color, depth, mask, camera, KeptInRows(color, depth, mask, camera, v - 1),
                    KeptInRow(color, depth, mask, camera, v - 1, color.width));
    }
  }

  /** Row v lists its pixels left to right, each once. */
  lemma {:induction false} KeptInRowSorted(color: Image<Rgb>, depth: Image<int>, mask: Option<Image<int>>, camera: Camera, v: nat, u: nat)
    requires FrameValid(color, depth, mask) && v < color.height && u <= color.width
    ensures RowMajorSorted(KeptInRow(color, depth, mask, camera, v, u))
    decreases u
  {
    if u > 0 {
      KeptInRowSorted(color, depth, mask, camera, v, u - 1);
      var prev := KeptInRow(color, depth, mask, camera, v, u - 1);
      var last := if Keeps(color, depth, mask, camera, u - 1, v) then [Pixel(u - 1, v)] else [];
      forall i, j | 0 <= i < |prev| && 0 <= j < |last| ensures RowMajorBefore(prev[i], last[j]) {
        assert prev[i].v == v && prev[i].u < u - 1 && last[j] == Pixel(u - 1, v);
      }
      SortedAppend(prev, last);
    }
  }

  /** Row v lists every kept pixel left of u. */
  lemma {:induction false} KeptInRowComplete(color: Image<Rgb>, depth: Image<int>, mask: Option<Image<int>>, camera: Camera, v: nat, u: nat)
    requires FrameValid(color, depth, mask) && v < color.height && u <= color.width
    ensures forall x: nat {:trigger KeptAt(color, depth, mask, camera, Pixel(x, v))} :: 0 <= x < u && KeptAt(color, depth, mask, camera, Pixel(x, v)) ==>
              Pixel(x, v) in KeptInRow(color, depth, mask, camera, v, u)
    decreases u
  {
    if u > 0 {
      KeptInRowComplete(color, depth, mask, camera, v, u - 1);
      var prev := KeptInRow(color, depth, mask, camera, v, u - 1);
      var last := if Keeps(color, depth, mask, camera, u - 1, v) then [Pixel(u - 1, v)] else [];
      var row := KeptInRow(color, depth, mask, camera, v, u);
      assert row == prev + last;
      forall x | 0 <= x < u && KeptAt(color, depth, mask, camera, Pixel(x, v))
        ensures Pixel(x, v) in row
      {
        if x < u - 1 {
          assert Pixel(x, v) in prev;
          InAppendLeft(prev, last, Pixel(x, v));
        } else {
          assert last == [Pixel(x, v)];
          InAppendRight(prev, last, Pixel(x, v));
        }
      }
    }
  }

  /** Rows 0 .. v - 1 list their pixels in row-major order, each once. */
  lemma {:induction false} KeptInRowsSorted(color: Image<Rgb>, depth: Image<int>, mask: Option<Image<int>>, camera: Camera, v: nat)
    requires FrameValid(color, depth, mask) && v <= color.height
    ensures RowMajorSorted(KeptInRows(color, depth, mask, camera, v))
    decreases v
  {
    if v > 0 {
      KeptInRowsSorted(color, depth, mask, camera, v - 1);
      KeptInRowSorted(color, depth, mask, camera, v - 1, color.width);
      var prev := KeptInRows(color, depth, mask, camera, v - 1);
      var row := KeptInRow(color, depth, mask, camera, v - 1, color.width);
      forall i, j | 0 <= i < |prev| && 0 <= j < |row| ensures RowMajorBefore(prev[i], row[j]) {
        assert prev[i].v < v - 1 && row[j].v == v - 1;
      }
      SortedAppend(prev, row);
    }
  }

  /** Rows 0 .. v - 1 list every kept pixel above row v. */
  lemma {:induction false} KeptInRowsComplete(color: Image<Rgb>, depth: Image<int>, mask: Option<Image<int>>, camera: Camera, v: nat)
    requires FrameValid(color, depth, mask) && v <= color.height
    ensures forall p: Pixel {:trigger KeptAt(color, depth, mask, camera, p)} :: p.v < v && KeptAt(color, depth, mask, camera, p) ==>
              p in KeptInRows(color, depth, mask, camera, v)
    decreases v
  {
    if v > 0 {
      KeptInRowsComplete(color, depth, mask, camera, v - 1);
      KeptInRowComplete(color, depth, mask, camera, v - 1, color.width);
      var prev := KeptInRows(color, depth, mask, camera, v - 1);
      var row := KeptInRow(color, depth, mask, camera, v - 1, color.width);
      var rows := KeptInRows(color, depth, mask, camera, v);
      assert rows == prev + row;
      forall p: Pixel | p.v < v && KeptAt(color, depth, mask, camera, p)
        ensures p in rows
      {
        if p.v < v - 1 {
          assert p in prev;
          InAppendLeft(prev, row, p);
        } else {
          assert p == Pixel(p.u, v - 1) && KeptAt(color, depth, mask, camera, Pixel(p.u, v - 1));
          InAppendRight(prev, row, p);
        }
      }
    }
  }

  /** What one frame yields: one point per pixel whose scaled depth (and mask, when given) is
      non-zero, and none for any other pixel; the points follow the row-major pixel order; each
      point is the pinhole back-projection of its pixel and carries that pixel's colour. */
  lemma FrameCloudSpec(color: Image<Rgb>, depth: Image<int>, mask: Option<Image<int>>, camera: Camera)
    requires FrameValid(color, depth, mask) && camera.Valid()
    ensures |FrameCloud(color, depth, mask, camera)| == |KeptPixels(color, depth, mask, camera)|
    ensures forall p :: p in KeptPixels(color, depth, mask, camera) <==> KeptAt(color, depth, mask, camera, p)
    ensures var kept := KeptPixels(color, depth, mask, camera);
              forall i, j :: 0 <= i < j < |kept| ==> RowMajorBefore(kept[i], kept[j])
  {
    KeptInRowsSound(color, depth, mask, camera, color.height);
    KeptInRowsSorted(color, depth, mask, camera, color.height);
    KeptInRowsComplete(color, depth, mask, camera, color.height);
    var kept := KeptPixels(color, depth, mask, camera);
    assert kept == KeptInRows(color, depth, mask, camera, color.height);
    forall p | p in kept
      ensures KeptAt(color, depth, mask, camera, p)
    {
      var i :| 0 <= i < |kept| && kept[i] == p;
    }
  }

  /** Point j of a frame's cloud is the pinhole back-projection (CameraPoint) of kept pixel j,
      whose raw depth and scaling factor are both non-zero and whose mask value, when a mask is
      given, is non-zero. */
  lemma FramePointIsPinhole(color: Image<Rgb>, depth: Image<int>, mask: Option<Image<int>>, camera: Camera, j: nat)
    requires FrameValid(color, depth, mask) && camera.Valid()
    requires j < |FrameCloud(color, depth, mask, camera)|
    ensures var p := KeptPixels(color, depth, mask, camera)[j];
            InGrid(color, p) &&
            depth.At(p.u, p.v) != 0 && camera.scalingfactor != 0.0 &&
            (mask.Some? ==> mask.value.At(p.u, p.v) != 0) &&
            FrameCloud(color, depth, mask, camera)[j] == CameraPoint(color, depth, camera, p)
  {
    KeptInRowsSound(color, depth, mask, camera, color.height);
    var kept := KeptPixels(color, depth, mask, camera);
    assert kept == KeptInRows(color, depth, mask, camera, color.height);
    assert Keeps(color, depth, mask, camera, kept[j].u, kept[j].v);
  }

  /** A pixel with zero scaled depth, or with a zero mask value when a mask is given, yields no point. */
  lemma ZeroPixelNeverEmitted(color: Image<Rgb>, depth: Image<int>, mask: Option<Image<int>>, camera: Camera, u: nat, v: nat)
    requires FrameValid(color, depth, mask) && camera.Valid() && u < color.width && v < color.height
    requires depth.At(u, v) as real * camera.scalingfactor == 0.0 || (mask.Some? && mask.value.At(u, v) == 0)
    ensures Pixel(u, v) !in KeptPixels(color, depth, mask, camera)
  {
    ScaledDepthZero(depth, camera, u, v);
    KeptInRowsSound(color, depth, mask, camera, color.height);
  }

  /** A mask never keeps a pixel that the depth alone would drop. */
  lemma MaskOnlyRemoves(color: Image<Rgb>, depth: Image<int>, mask: Image<int>, camera: Camera, p: Pixel)
    requires FrameValid(color, depth, Some(mask)) && camera.Valid()
    requires p in KeptPixels(color, depth, Some(mask), camera)
    ensures p in KeptPixels(color, depth, None, camera)
  {
    FrameCloudSpec(color, depth, Some(mask), camera);
    FrameCloudSpec(color, depth, None, camera);
    assert KeptAt(color, depth, Some(mask), camera, p);
    assert KeptAt(color, depth, None, camera, p);
  }

  predicate NowhereZero(mask: Image<int>) {
    forall v, u :: 0 <= v < |mask.pixels| && 0 <= u < |mask.pixels[v]| ==> mask.pixels[v][u] != 0
  }

  lemma {:induction false} NowhereZeroRow(color: Image<Rgb>, depth: Image<int>, mask: Image<int>, camera: Camera, v: nat, u: nat)
    requires FrameValid(color, depth, Some(mask)) && NowhereZero(mask) && v < color.height && u <= color.width
    ensures KeptInRow(color, depth, Some(mask), camera, v, u) == KeptInRow(color, depth, None, camera, v, u)
    decreases u
  {
    if u > 0 {
      NowhereZeroRow(color, depth, mask, camera, v, u - 1);
      assert mask.At(u - 1, v) != 0;
    }
  }

  lemma {:induction false} NowhereZeroRows(color: Image<Rgb>, depth: Image<int>, mask: Image<int>, camera: Camera, v: nat)
    requires FrameValid(color, depth, Some(mask)) && NowhereZero(mask) && v <= color.height
    ensures KeptInRows(color, depth, Some(mask), camera, v) == KeptInRows(color, depth, None, camera, v)
    decreases v
  {
    if v > 0 {
      NowhereZeroRows(color, depth, mask, camera, v - 1);
      NowhereZeroRow(color, depth, mask, camera, v - 1, color.width);
    }
  }

  /** A mask that is non-zero everywhere yields the same cloud as no mask at all. */
  lemma NowhereZeroMaskKeepsAll(color: Image<Rgb>, depth: Image<int>, mask: Image<int>, camera: Camera)
    requires FrameValid(color, depth, Some(mask)) && camera.Valid() && NowhereZero(mask)
    ensures FrameCloud(color, depth, Some(mask), camera) == FrameCloud(color, depth, None, camera)
  {
    NowhereZeroRows(color, depth, mask, camera, color.height);
  }

  /** The body of the pixel loops of color_and_depth_to_ply at pixel (u, v): a kept pixel appends
      its back-projected point. */
  method ColorAndDepthPixel(rgb: Image<Rgb>, depth: Image<int>, camera: Camera, v: nat, u: nat, before: seq<Point>)
    returns (points: seq<Point>)
    requires FrameValid(rgb, depth, None) && camera.Valid() && v < rgb.height && u < rgb.width
    requires before == Project(rgb, depth, camera, Visited(rgb, depth, None, camera, v, u))
    ensures points == Project(rgb, depth, camera, Visited(rgb, depth, None, camera, v, u + 1))
  {
    var color := rgb.At(u, v);
    var z := depth.At(u, v) as real * camera.scalingfactor;
    VisitPixel(rgb, depth, None, camera, v, u);
    ScaledDepthZero(depth, camera, u, v);
    if z == 0.0 {
      return before;
    }
    var x := (u as real - camera.cx) * z / camera.fx;
    var y := (v as real - camera.cy) * z / camera.fy;
    PinholeAt(rgb, depth, camera, u, v, x, y, z, color);
    points := before + [Point(Vec3(x, y, z), color)];
  }

  /** One row of the pixel loops of color_and_depth_to_ply: row v appends the points of its kept
      pixels. */
  method ColorAndDepthRow(rgb: Image<Rgb>, depth: Image<int>, camera: Camera, v: nat, before: seq<Point>)
    returns (points: seq<Point>)
    requires FrameValid(rgb, depth, None) && camera.Valid() && v < rgb.height
    requires before == Project(rgb, depth, camera, Visited(rgb, depth, None, camera, v, 0))
    ensures points == Project(rgb, depth, camera, Visited(rgb, depth, None, camera, v + 1, 0))
  {
    points := before;
    for u := 0 to rgb.width
      invariant points == Project(rgb, depth, camera, Visited(rgb, depth, None, camera, v, u))
    {
      points := ColorAndDepthPixel(rgb, depth, camera, v, u, points);
    }
    NextRow(rgb, depth, None, camera, v);
  }

  /** color_and_depth_to_ply on images already opened: the size check, then the colour mode
      ("RGB"), then the depth mode ("I"), then one point per kept pixel. */
  method ColorAndDepthToPly(rgb: Image<Rgb>, depth: Image<int>, camera: Camera) returns (r: Result<seq<Point>>)
    requires rgb.Valid() && depth.Valid() && camera.Valid()
    ensures !SameSize(rgb, depth) ==> r == Err(DimensionMismatch)
    ensures SameSize(rgb, depth) && rgb.mode != "RGB" ==> r == Err(InvalidColorFormat)
    ensures SameSize(rgb, depth) && rgb.mode == "RGB" && depth.mode != "I" ==> r == Err(InvalidDepthFormat)
    ensures SameSize(rgb, depth) && rgb.mode == "RGB" && depth.mode == "I" ==>
              FrameValid(rgb, depth, None) && r == Ok(FrameCloud(rgb, depth, None, camera))
  {
    if !SameSize(rgb, depth) {
      return Err(DimensionMismatch);
    }
    if rgb.mode != "RGB" {
      return Err(InvalidColorFormat);
    }
    if depth.mode != "I" {
      return Err(InvalidDepthFormat);
    }
    assert FrameValid(rgb, depth, None);
    var points := [];
    for v := 0 to rgb.height
      invariant points == Project(rgb, depth, camera, Visited(rgb, depth, None, camera, v, 0))
    {
      points := ColorAndDepthRow(rgb, depth, camera, v, points);
    }
    assert Visited(rgb, depth, None, camera, rgb.height, 0) == KeptPixels(rgb, depth, None, camera);
    return Ok(points);
  }

  /** The body of the pixel loops of mask_to_partial_pointcloud at pixel (u, v): a kept pixel
      appends its point, and its coordinates alongside. */
  method MaskedPixel(color: Image<Rgb>, depth: Image<int>, mask: Image<int>, camera: Camera, v: nat, u: nat,
                     before: seq<Point>, beforeXyz: seq<Vec3>)
    returns (points: seq<Point>, xyzPoints: seq<Vec3>)
    requires FrameValid(color, depth, Some(mask)) && camera.Valid() && v < color.height && u < color.width
    requires before == Project(color, depth, camera, Visited(color, depth, Some(mask), camera, v, u))
    requires beforeXyz == Positions(before)
    ensures points == Project(color, depth, camera, Visited(color, depth, Some(mask), camera, v, u + 1))
    ensures xyzPoints == Positions(points)
  {
    var c := color.At(u, v);
    var z := depth.At(u, v) as real * camera.scalingfactor;
    VisitPixel(color, depth, Some(mask), camera, v, u);
    ScaledDepthZero(depth, camera, u, v);
    if z == 0.0 || mask.At(u, v) == 0 {
      return before, beforeXyz;
    }
    var x := (u as real - camera.cx) * z / camera.fx;
    var y := (v as real - camera.cy) * z / camera.fy;
    PinholeAt(color, depth, camera, u, v, x, y, z, c);
    PositionsSnoc(before, Point(Vec3(x, y, z), c));
    xyzPoints := beforeXyz + [Vec3(x, y, z)];
    points := before + [Point(Vec3(x, y, z), c)];
  }

  /** One row of the pixel loops of mask_to_partial_pointcloud: row v appends the points of its
      kept pixels and, alongside, their bare coordinates. */
  method MaskedRow(color: Image<Rgb>, depth: Image<int>, mask: Image<int>, camera: Camera, v: nat,
                   before: seq<Point>, beforeXyz: seq<Vec3>)
    returns (points: seq<Point>, xyzPoints: seq<Vec3>)
    requires FrameValid(color, depth, Some(mask)) && camera.Valid() && v < color.height
    requires before == Project(color, depth, camera, Visited(color, depth, Some(mask), camera, v, 0))
    requires beforeXyz == Positions(before)
    ensures points == Project(color, depth, camera, Visited(color, depth, Some(mask), camera, v + 1, 0))
    ensures xyzPoints == Positions(points)
  {
    points, xyzPoints := before, beforeXyz;
    for u := 0 to color.width
      invariant points == Project(color, depth, camera, Visited(color, depth, Some(mask), camera, v, u))
      invariant xyzPoints == Positions(points)
    {
      points, xyzPoints := MaskedPixel(color, depth, mask, camera, v, u, points, xyzPoints);
    }
    NextRow(color, depth, Some(mask), camera, v);
  }

  /** mask_to_partial_pointcloud on images already converted: the size check, then the colour
      mode ("RGB"), the depth mode ("I;16") and the mask mode ("L"); then the kept points and,
      index by index, their bare coordinates. */
  method MaskToPartialPointcloud(color: Image<Rgb>, depth: Image<int>, mask: Image<int>, camera: Camera)
    returns (r: Result<(seq<Point>, seq<Vec3>)>)
    requires color.Valid() && depth.Valid() && mask.Valid() && camera.Valid()
    requires SameSize(color, depth) && color.mode == "RGB" && depth.mode == "I;16" && mask.mode == "L" ==>
               Covers(mask, color)
    ensures !SameSize(color, depth) ==> r == Err(DimensionMismatch)
    ensures SameSize(color, depth) && color.mode != "RGB" ==> r == Err(InvalidColorFormat)
    ensures SameSize(color, depth) && color.mode == "RGB" && depth.mode != "I;16" ==> r == Err(InvalidDepthFormat)
    ensures SameSize(color, depth) && color.mode == "RGB" && depth.mode == "I;16" && mask.mode != "L" ==>
              r == Err(InvalidMaskFormat)
    ensures SameSize(color, depth) && color.mode == "RGB" && depth.mode == "I;16" && mask.mode == "L" ==>
              FrameValid(color, depth, Some(mask)) && r.Ok? && r.value.0 == FrameCloud(color, depth, Some(mask), camera)
    ensures r.Ok? ==> r.value.1 == Positions(r.value.0)
  {
    if !SameSize(color, depth) {
      return Err(DimensionMismatch);
    }
    if color.mode != "RGB" {
      return Err(InvalidColorFormat);
    }
    if depth.mode != "I;16" {
      return Err(InvalidDepthFormat);
    }
    if mask.mode != "L" {
      return Err(InvalidMaskFormat);
    }
    assert FrameValid(color, depth, Some(mask));
    var points := [];
    var xyzPoints := [];
    for v := 0 to color.height
      invariant points == Project(color, depth, camera, Visited(color, depth, Some(mask), camera, v, 0))
      invariant xyzPoints == Positions(points)
    {
      points, xyzPoints := MaskedRow(color, depth, mask, camera, v, points, xyzPoints);
    }
    assert Visited(color, depth, Some(mask), camera, color.height, 0) == KeptPixels(color, depth, Some(mask), camera);
    return Ok((points, xyzPoints));
  }
}
