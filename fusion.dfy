/** Fusing several posed RGB-D frames into one world-frame cloud (join_map, join_map_with_mask). */
module Fusion {
  import opened Geometry
  import opened CloudTypes
  import opened BackProjection

  /** A camera-frame point carried into the world frame by a pose; its colour is kept. */
  function TransformPoint(pose: Matrix, p: Point): Point
    requires IsMatrix(pose, 4, 4)
  {
    Point(ApplyPose(pose, p.pos), p.color)
  }

  function Transformed(pose: Matrix, cloud: seq<Point>): seq<Point>
    requires IsMatrix(pose, 4, 4)
  {
    seq(|cloud|, j requires 0 <= j < |cloud| => TransformPoint(pose, cloud[j]))
  }

  /** The mask of frame i, when the frames come with masks. */
  function MaskAt(masks: Option<seq<Image<int>>>, i: nat): Option<Image<int>>
    requires masks.Some? ==> i < |masks.value|
  {
    if masks.None? then None else Some(masks.value[i])
  }

  /** The first n frames are there and each is a 4x4 pose with a depth image (and mask) covering
      its colour image. */
  predicate FramesOk(poses: seq<Matrix>, colors: seq<Image<Rgb>>, depths: seq<Image<int>>,
                     masks: Option<seq<Image<int>>>, n: nat)
  {
    n <= |poses| && n <= |colors| && n <= |depths| && (masks.Some? ==> n <= |masks.value|) &&
    forall i :: 0 <= i < n ==> IsMatrix(poses[i], 4, 4) && FrameValid(colors[i], depths[i], MaskAt(masks, i))
  }

  /** The cloud of frame i in the world frame. */
  function WorldFrame(poses: seq<Matrix>, colors: seq<Image<Rgb>>, depths: seq<Image<int>>,
                      masks: Option<seq<Image<int>>>, camera: Camera, i: nat): seq<Point>
    requires FramesOk(poses, colors, depths, masks, i + 1) && camera.Valid()
  {
    Transformed(poses[i], FrameCloud(colors[i], depths[i], MaskAt(masks, i), camera))
  }

  /** The number of kept pixels in frames 0 .. n - 1. */
  function KeptCount(poses: seq<Matrix>, colors: seq<Image<Rgb>>, depths: seq<Image<int>>,
                     masks: Option<seq<Image<int>>>, camera: Camera, n: nat): nat
    requires FramesOk(poses, colors, depths, masks, n)
  {
    if n == 0 then 0
    else KeptCount(poses, colors, depths, masks, camera, n - 1) +
         |KeptPixels(colors[n - 1], depths[n - 1], MaskAt(masks, n - 1), camera)|
  }

  /** The fused cloud of frames 0 .. n - 1: their world-frame clouds one after the other. */
  function Fused(poses: seq<Matrix>, colors: seq<Image<Rgb>>, depths: seq<Image<int>>,
                 masks: Option<seq<Image<int>>>, camera: Camera, n: nat): seq<Point>
    requires FramesOk(poses, colors, depths, masks, n) && camera.Valid()
  {
    if n == 0 then []
    else Fused(poses, colors, depths, masks, camera, n - 1) + WorldFrame(poses, colors, depths, masks, camera, n - 1)
  }

  lemma TransformedSnoc(pose: Matrix, cloud: seq<Point>, p: Point)
    requires IsMatrix(pose, 4, 4)
    ensures Transformed(pose, cloud + [p]) == Transformed(pose, cloud) + [TransformPoint(pose, p)]
  {
  }

  /** The world-frame points of the kept pixels the loops have visited before reaching (u, v). */
  function WorldVisited(pose: Matrix, rgb: Image<Rgb>, depth: Image<int>, mask: Option<Image<int>>, camera: Camera,
                        v: nat, u: nat): seq<Point>
    requires IsMatrix(pose, 4, 4) && FrameValid(rgb, depth, mask) && camera.Valid()
    requires v <= rgb.height && u <= rgb.width && (v == rgb.height ==> u == 0)
  {
    Transformed(pose, Project(rgb, depth, camera, Visited(rgb, depth, mask, camera, v, u)))
  }

  /** Visiting pixel (u, v) adds its world-frame point exactly when the pixel is kept. */
  lemma WorldPixel(pose: Matrix, rgb: Image<Rgb>, depth: Image<int>, mask: Option<Image<int>>, camera: Camera,
                   v: nat, u: nat)
    requires IsMatrix(pose, 4, 4) && FrameValid(rgb, depth, mask) && camera.Valid()
    requires v < rgb.height && u < rgb.width
    ensures WorldVisited(pose, rgb, depth, mask, camera, v, u + 1) ==
            WorldVisited(pose, rgb, depth, mask, camera, v, u) +
            (if Keeps(rgb, depth, mask, camera, u, v)
             then [TransformPoint(pose, CameraPoint(rgb, depth, camera, Pixel(u, v)))] else [])
  {
    VisitPixel(rgb, depth, mask, camera, v, u);
    if Keeps(rgb, depth, mask, camera, u, v) {
      TransformedSnoc(pose, Project(rgb, depth, camera, Visited(rgb, depth, mask, camera, v, u)),
                      CameraPoint(rgb, depth, camera, Pixel(u, v)));
    }
  }

  /** The body of the pixel loops of join_map at pixel (u, v): a kept pixel appends its point,
      back-projected and carried into the world frame. */
  method JoinMapPixel(pose: Matrix, rgb: Image<Rgb>, depth: Image<int>, camera: Camera, v: nat, u: nat,
                      base: seq<Point>, before: seq<Point>)
    returns (points: seq<Point>)
    requires IsMatrix(pose, 4, 4) && FrameValid(rgb, depth, None) && camera.Valid()
    requires v < rgb.height && u < rgb.width
    requires before == base + WorldVisited(pose, rgb, depth, None, camera, v, u)
    ensures points == base + WorldVisited(pose, rgb, depth, None, camera, v, u + 1)
  {
    var color := rgb.At(u, v);
    var z := depth.At(u, v) as real * camera.scalingfactor;
    if z == 0.0 {
      WorldPixel(pose, rgb, depth, None, camera, v, u);
      ScaledDepthZero(depth, camera, u, v);
      return before;
    }
    var x := (u as real - camera.cx) * z / camera.fx;
    var y := (v as real - camera.cy) * z / camera.fy;
    var worldPoint := ApplyPose(pose, Vec3(x, y, z));
    assert Point(worldPoint, color) == TransformPoint(pose, CameraPoint(rgb, depth, camera, Pixel(u, v))) by {
      PinholeAt(rgb, depth, camera, u, v, x, y, z, color);
    }
    WorldPixel(pose, rgb, depth, None, camera, v, u);
    ScaledDepthZero(depth, camera, u, v);
    points := before + [Point(worldPoint, color)];
  }

  /** One row of the pixel loops of join_map: row v of a frame appends the world-frame points of
      its kept pixels. */
  method JoinMapRow(pose: Matrix, rgb: Image<Rgb>, depth: Image<int>, camera: Camera, v: nat,
                    base: seq<Point>, before: seq<Point>)
    returns (points: seq<Point>)
    requires IsMatrix(pose, 4, 4) && FrameValid(rgb, depth, None) && camera.Valid() && v < rgb.height
    requires before == base + WorldVisited(pose, rgb, depth, None, camera, v, 0)
    ensures points == base + WorldVisited(pose, rgb, depth, None, camera, v + 1, 0)
  {
    points := before;
    for u := 0 to rgb.width
      invariant points == base + WorldVisited(pose, rgb, depth, None, camera, v, u)
    {
      points := JoinMapPixel(pose, rgb, depth, camera, v, u, base, points);
    }
    NextRow(rgb, depth, None, camera, v);
  }

  /** The pixel loops of join_map over one frame: the frame's world-frame cloud is appended. */
  method JoinMapFrame(pose: Matrix, rgb: Image<Rgb>, depth: Image<int>, camera: Camera, base: seq<Point>)
    returns (points: seq<Point>)
    requires IsMatrix(pose, 4, 4) && FrameValid(rgb, depth, None) && camera.Valid()
    ensures points == base + Transformed(pose, FrameCloud(rgb, depth, None, camera))
  {
    points := base;
    for v := 0 to rgb.height
      invariant points == base + WorldVisited(pose, rgb, depth, None, camera, v, 0)
    {
      points := JoinMapRow(pose, rgb, depth, camera, v, base, points);
    }
    assert Visited(rgb, depth, None, camera, rgb.height, 0) == KeptPixels(rgb, depth, None, camera);
  }

  /** join_map: the three lists must have one length; then every frame's kept pixels, back-projected
      and carried into the world frame by that frame's pose, frame after frame. */
  method JoinMap(poses: seq<Matrix>, colors: seq<Image<Rgb>>, depths: seq<Image<int>>, camera: Camera)
    returns (r: Result<seq<Point>>)
    requires camera.Valid()
    requires |poses| == |colors| == |depths| ==> FramesOk(poses, colors, depths, None, |poses|)
    ensures r.Err? <==> |poses| != |colors| || |poses| != |depths|
    ensures r.Err? ==> r.error == SequenceLengthMismatch
    ensures r.Ok? ==> r.value == Fused(poses, colors, depths, None, camera, |poses|)
  {
    if |poses| != |colors| || |poses| != |depths| {
      return Err(SequenceLengthMismatch);
    }
    var points := [];
    for i := 0 to |poses|
      invariant points == Fused(poses, colors, depths, None, camera, i)
    {
      assert FrameValid(colors[i], depths[i], MaskAt(None, i));
      points := JoinMapFrame(poses[i], colors[i], depths[i], camera, points);
    }
    return Ok(points);
  }

  /** The body of the pixel loops of join_map_with_mask at pixel (u, v): a kept pixel appends its
      world-frame point, and its coordinates alongside. */
  method JoinMapWithMaskPixel(pose: Matrix, rgb: Image<Rgb>, depth: Image<int>, mask: Image<int>, camera: Camera,
                              v: nat, u: nat, base: seq<Point>, before: seq<Point>, beforeXyz: seq<Vec3>)
    returns (points: seq<Point>, xyzPoints: seq<Vec3>)
    requires IsMatrix(pose, 4, 4) && FrameValid(rgb, depth, Some(mask)) && camera.Valid()
    requires v < rgb.height && u < rgb.width
    requires before == base + WorldVisited(pose, rgb, depth, Some(mask), camera, v, u)
    requires beforeXyz == Positions(before)
    ensures points == base + WorldVisited(pose, rgb, depth, Some(mask), camera, v, u + 1)
    ensures xyzPoints == Positions(points)
  {
    var color := rgb.At(u, v);
    var z := depth.At(u, v) as real * camera.scalingfactor;
    if z == 0.0 || mask.At(u, v) == 0 {
      WorldPixel(pose, rgb, depth, Some(mask), camera, v, u);
      ScaledDepthZero(depth, camera, u, v);
      return before, beforeXyz;
    }
    var x := (u as real - camera.cx) * z / camera.fx;
    var y := (v as real - camera.cy) * z / camera.fy;
    var worldPoint := ApplyPose(pose, Vec3(x, y, z));
    assert Point(worldPoint, color) == TransformPoint(pose, CameraPoint(rgb, depth, camera, Pixel(u, v))) by {
      PinholeAt(rgb, depth, camera, u, v, x, y, z, color);
    }
    WorldPixel(pose, rgb, depth, Some(mask), camera, v, u);
    ScaledDepthZero(depth, camera, u, v);
    PositionsSnoc(before, Point(worldPoint, color));
    xyzPoints := beforeXyz + [worldPoint];
    points := before + [Point(worldPoint, color)];
  }

  /** One row of the pixel loops of join_map_with_mask: row v of a frame appends the world-frame
      points of its kept pixels and, alongside, their bare coordinates. */
  method JoinMapWithMaskRow(pose: Matrix, rgb: Image<Rgb>, depth: Image<int>, mask: Image<int>, camera: Camera, v: nat,
                            base: seq<Point>, before: seq<Point>, beforeXyz: seq<Vec3>)
    returns (points: seq<Point>, xyzPoints: seq<Vec3>)
    requires IsMatrix(pose, 4, 4) && FrameValid(rgb, depth, Some(mask)) && camera.Valid() && v < rgb.height
    requires before == base + WorldVisited(pose, rgb, depth, Some(mask), camera, v, 0)
    requires beforeXyz == Positions(before)
    ensures points == base + WorldVisited(pose, rgb, depth, Some(mask), camera, v + 1, 0)
    ensures xyzPoints == Positions(points)
  {
    points, xyzPoints := before, beforeXyz;
    for u := 0 to rgb.width
      invariant points == base + WorldVisited(pose, rgb, depth, Some(mask), camera, v, u)
      invariant xyzPoints == Positions(points)
    {
      points, xyzPoints := JoinMapWithMaskPixel(pose, rgb, depth, mask, camera, v, u, base, points, xyzPoints);
    }
    NextRow(rgb, depth, Some(mask), camera, v);
  }

  /** The pixel loops of join_map_with_mask over one frame: the frame's world-frame cloud is
      appended, and its coordinates alongside. */
  method JoinMapWithMaskFrame(pose: Matrix, rgb: Image<Rgb>, depth: Image<int>, mask: Image<int>, camera: Camera,
                              base: seq<Point>, baseXyz: seq<Vec3>)
    returns (points: seq<Point>, xyzPoints: seq<Vec3>)
    requires IsMatrix(pose, 4, 4) && FrameValid(rgb, depth, Some(mask)) && camera.Valid()
    requires baseXyz == Positions(base)
    ensures points == base + Transformed(pose, FrameCloud(rgb, depth, Some(mask), camera))
    ensures xyzPoints == Positions(points)
  {
    points, xyzPoints := base, baseXyz;
    for v := 0 to rgb.height
      invariant points == base + WorldVisited(pose, rgb, depth, Some(mask), camera, v, 0)
      invariant xyzPoints == Positions(points)
    {
      points, xyzPoints := JoinMapWithMaskRow(pose, rgb, depth, mask, camera, v, base, points, xyzPoints);
    }
    assert Visited(rgb, depth, Some(mask), camera, rgb.height, 0) == KeptPixels(rgb, depth, Some(mask), camera);
  }

  /** join_map_with_mask: the four lists must have one length; then, frame after frame, the
      world-frame points of the pixels the depth and the frame's mask keep and, index by index,
      their bare coordinates. */
  method JoinMapWithMask(poses: seq<Matrix>, colors: seq<Image<Rgb>>, depths: seq<Image<int>>,
                         masks: seq<Image<int>>, camera: Camera)
    returns (r: Result<(seq<Point>, seq<Vec3>)>)
    requires camera.Valid()
    requires |poses| == |colors| == |depths| == |masks| ==> FramesOk(poses, colors, depths, Some(masks), |poses|)
    ensures r.Err? <==> |poses| != |colors| || |poses| != |depths| || |poses| != |masks|
    ensures r.Err? ==> r.error == SequenceLengthMismatch
    ensures r.Ok? ==> r.value.0 == Fused(poses, colors, depths, Some(masks), camera, |poses|)
    ensures r.Ok? ==> r.value.1 == Positions(r.value.0)
  {
    if |poses| != |colors| || |poses| != |depths| || |poses| != |masks| {
      return Err(SequenceLengthMismatch);
    }
    var points := [];
    var xyzPoints := [];
    for i := 0 to |poses|
      invariant points == Fused(poses, colors, depths, Some(masks), camera, i)
      invariant xyzPoints == Positions(points)
    {
      assert FrameValid(colors[i], depths[i], MaskAt(Some(masks), i));
      points, xyzPoints := JoinMapWithMaskFrame(poses[i], colors[i], depths[i], masks[i], camera, points, xyzPoints);
    }
    return Ok((points, xyzPoints));
  }

  lemma ApplyIdentity(p: Vec3)
    ensures ApplyPose(Identity4(), p) == p
  {
  }

  /** The identity pose leaves a cloud as it is. */
  lemma TransformedIdentity(cloud: seq<Point>)
    ensures Transformed(Identity4(), cloud) == cloud
  {
    forall j | 0 <= j < |cloud| ensures Transformed(Identity4(), cloud)[j] == cloud[j] {
      ApplyIdentity(cloud[j].pos);
    }
  }

  /** Fusing more frames only appends: the fused cloud of the first i frames is a prefix of that
      of the first n. */
  lemma {:induction false} FusedPrefix(poses: seq<Matrix>, colors: seq<Image<Rgb>>, depths: seq<Image<int>>,
                                       masks: Option<seq<Image<int>>>, camera: Camera, i: nat, n: nat)
    requires FramesOk(poses, colors, depths, masks, n) && camera.Valid() && i <= n
    ensures FramesOk(poses, colors, depths, masks, i)
    ensures |Fused(poses, colors, depths, masks, camera, i)| <= |Fused(poses, colors, depths, masks, camera, n)|
    ensures Fused(poses, colors, depths, masks, camera, n)[..|Fused(poses, colors, depths, masks, camera, i)|] ==
            Fused(poses, colors, depths, masks, camera, i)
    decreases n
  {
    if i < n {
      FusedPrefix(poses, colors, depths, masks, camera, i, n - 1);
      var a := Fused(poses, colors, depths, masks, camera, i);
      var b := Fused(poses, colors, depths, masks, camera, n - 1);
      var c := Fused(poses, colors, depths, masks, camera, n);
      assert c == b + WorldFrame(poses, colors, depths, masks, camera, n - 1);
      assert c[..|a|] == b[..|a|];
    }
  }

  /** The fused cloud of n frames has one point per kept pixel of every frame. */
  lemma {:induction false} FusedCount(poses: seq<Matrix>, colors: seq<Image<Rgb>>, depths: seq<Image<int>>,
                                      masks: Option<seq<Image<int>>>, camera: Camera, n: nat)
    requires FramesOk(poses, colors, depths, masks, n) && camera.Valid()
    ensures |Fused(poses, colors, depths, masks, camera, n)| == KeptCount(poses, colors, depths, masks, camera, n)
    decreases n
  {
    if n > 0 {
      FusedCount(poses, colors, depths, masks, camera, n - 1);
    }
  }

  /** Frame i's world-frame cloud lies in the fused cloud right after the clouds of frames 0 .. i - 1. */
  lemma FusedFrame(poses: seq<Matrix>, colors: seq<Image<Rgb>>, depths: seq<Image<int>>,
                   masks: Option<seq<Image<int>>>, camera: Camera, i: nat, n: nat)
    requires FramesOk(poses, colors, depths, masks, n) && camera.Valid() && i < n
    ensures FramesOk(poses, colors, depths, masks, i + 1)
    ensures |Fused(poses, colors, depths, masks, camera, i + 1)| <= |Fused(poses, colors, depths, masks, camera, n)|
    ensures Fused(poses, colors, depths, masks, camera, n)[|Fused(poses, colors, depths, masks, camera, i)|..
                                                           |Fused(poses, colors, depths, masks, camera, i + 1)|] ==
            WorldFrame(poses, colors, depths, masks, camera, i)
  {
    FusedPrefix(poses, colors, depths, masks, camera, i + 1, n);
    var a := Fused(poses, colors, depths, masks, camera, i);
    var b := Fused(poses, colors, depths, masks, camera, i + 1);
    var c := Fused(poses, colors, depths, masks, camera, n);
    assert b == a + WorldFrame(poses, colors, depths, masks, camera, i);
    assert c[|a|..|b|] == b[|a|..];
  }

  /** A single frame at the identity pose fuses to that frame's own cloud. */
  lemma SingleIdentityFrame(poses: seq<Matrix>, colors: seq<Image<Rgb>>, depths: seq<Image<int>>,
                            masks: Option<seq<Image<int>>>, camera: Camera)
    requires FramesOk(poses, colors, depths, masks, 1) && camera.Valid() && poses[0] == Identity4()
    ensures Fused(poses, colors, depths, masks, camera, 1) == FrameCloud(colors[0], depths[0], MaskAt(masks, 0), camera)
  {
    TransformedIdentity(FrameCloud(colors[0], depths[0], MaskAt(masks, 0), camera));
  }
}
