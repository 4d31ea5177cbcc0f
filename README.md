# Point-cloud toolkit core, modelled in Dafny

This project models the computational core of `Utils/point_cloud_tool.py`, the point-cloud toolkit
behind a small RGB-D capture service. It covers five parts, all over exact real arithmetic:

- **Pose matrices** (`PoseCodec`): `quaterion_to_tfMatrix` builds a 4x4 homogeneous transform from
  a 7-value pose `(x, y, z, qx, qy, qz, qw)`.
- **Depth back-projection** (`BackProjection`): `color_and_depth_to_ply` and
  `mask_to_partial_pointcloud` check image size and modes, then walk the pixels row by row (v outer,
  u inner). They skip pixels whose scaled depth is 0 (or whose mask is 0) and emit one coloured
  pinhole point per remaining pixel. The specification is `FrameCloud`: the kept pixels
  (`KeptPixels`) mapped through the pinhole formula (`CameraPoint`).
- **Multi-view fusion** (`Fusion`): `join_map` and `join_map_with_mask` check that the parallel lists
  have one length. They then carry every frame's cloud into the world frame through the frame's pose
  and concatenate the clouds frame by frame. The specification is `Fused`.
- **Principal-axis re-orientation** (`PrincipalAxes`): the `is_show` block of `cal_pca` works on
  the 3x3 component matrix. Steps 1 and 2 overwrite rows in place; step 3 rebinds
  `pca.components_` to a new array, which the model writes into the same array instead, since
  the caller sees the same final values. Axis 2 is turned downward, axis 0 is replaced by
  axis 1 x axis 2, and a half turn about the body z axis points axis 0 forward. The specification
  is `Reoriented`.
- **Furthest-point sampling and centroid** (`Sampling`): `calc_distances`, the greedy
  `furthest_point_sampling` loop and `get_centroid_from_pc`. The loop state after n picks is `Run`,
  holding the picks and the running minimum squared distances.

`Geometry` holds vectors, 4x4 matrices and the homogeneous product `pose . (X, Y, Z, 1)`.
`CloudTypes` holds images (width, height, mode, pixel rows), camera intrinsics, coloured points
and the error kinds.

The imperative parts keep their shape. The back-projection and fusion loops are `for` loops that
append to sequences; they are split into a pixel step, a row loop and a frame loop, each proved
against the specification. The pose is filled into a 4x4 `array2`, `cal_pca` updates an `array2` in
place, and the sampler fills a `K`-row array. Pure expressions stay functions.

Two error messages say more or other than the checks they belong to; the model follows the checks:

- The error of `join_map` (and of `join_map_with_mask`) mentions resolution, but only the list
  lengths are compared.
- The mask-mode error of `mask_to_partial_pointcloud` says "Depth image". The model gives it its
  own error kind, `InvalidMaskFormat`.

Other behaviour worth knowing, which the model keeps as the code has it:

- The quaternion is normalised by the rotation library, which also rejects a quaternion of norm 0;
  the model has that rejection as `ZeroNormQuaternion` and leaves the normalisation to
  `rotationOf`.
- `furthest_point_sampling` does not check `1 <= K <= N`. For pairwise-distinct points and K <= N
  no index is picked twice; with repeated points an index can be picked again (from `[a, b, b]`
  seeded at 0, the picks are 0, 1, 0).
- Depth must be mode `"I"` in `color_and_depth_to_ply` but `"I;16"` in `mask_to_partial_pointcloud`,
  because there the depth image is built from a 16-bit array.

## Model

| member | source | states |
|---|---|---|
| PoseCodec.QuaternionToTfMatrix | Utils/point_cloud_tool.py:23-33 | fails with InvalidPoseFormat when the pose is not 7 values, and with ZeroNormQuaternion when its quaternion part is all zero, and in no other case; otherwise a 4x4 matrix whose upper-left 3x3 block is the rotation of values 3..6, whose column 3 (rows 0-2) is values 0..2, and whose row 3 is (0,0,0,1) |
| Geometry.ApplyPoseIsProduct | Utils/point_cloud_tool.py:62-63 | the per-coordinate world point is the first three components of the 4x4 product pose . (X, Y, Z, 1) |
| PoseCodec.PoseIsRigidMotion | Utils/point_cloud_tool.py:30-32 | a matrix built this way maps p to rotation . p + translation under the homogeneous product |
| BackProjection.ScaledDepthZero | Utils/point_cloud_tool.py:95-96 | the scaled depth Z is 0 exactly when the raw depth or the scaling factor is 0 |
| BackProjection.KeptInRow | Utils/point_cloud_tool.py:92-96 | the kept pixels of row v left of u, each in row v and left of u |
| BackProjection.KeptInRows | Utils/point_cloud_tool.py:91-96 | the kept pixels of rows 0 .. v - 1, each inside the image and above row v |
| BackProjection.FrameCloud | Utils/point_cloud_tool.py:91-99 | one point per kept pixel, and no point at depth Z = 0 |
| BackProjection.VisitPixel | Utils/point_cloud_tool.py:91-99 | visiting pixel (u, v) extends the cloud by that pixel's pinhole point when it is kept, and by nothing otherwise |
| BackProjection.PinholeAt | Utils/point_cloud_tool.py:93-99 | X = (u - cx) Z / fx, Y = (v - cy) Z / fy, Z = depth . scalingfactor with the colour at (u, v) is the point the specification assigns to pixel (u, v) |
| BackProjection.KeptInRowSound | Utils/point_cloud_tool.py:92-96 | every pixel one row yields passes the depth (and mask) test |
| BackProjection.KeptInRowSorted | Utils/point_cloud_tool.py:92 | one row yields its pixels left to right, none twice |
| BackProjection.KeptInRowComplete | Utils/point_cloud_tool.py:92-96 | every kept pixel left of u in the row is yielded |
| BackProjection.KeptInRowsSound | Utils/point_cloud_tool.py:91-96 | every pixel the first v rows yield passes the depth (and mask) test |
| BackProjection.KeptInRowsSorted | Utils/point_cloud_tool.py:91-92 | the first v rows yield pixels in strictly increasing row-major order |
| BackProjection.KeptInRowsComplete | Utils/point_cloud_tool.py:91-96 | every kept pixel above row v is yielded by the first v rows |
| BackProjection.FrameCloudSpec | Utils/point_cloud_tool.py:91-99 | a frame yields one point per kept pixel; a pixel is listed if and only if it is in the image with non-zero scaled depth (and non-zero mask); the pixels are in strictly increasing v-outer/u-inner order |
| BackProjection.FramePointIsPinhole | Utils/point_cloud_tool.py:95-99 | point j of a frame's cloud comes from a pixel with non-zero depth, non-zero factor and (if masked) non-zero mask, and is that pixel's pinhole point with its colour |
| BackProjection.ZeroPixelNeverEmitted | Utils/point_cloud_tool.py:128-130 | a pixel with zero scaled depth, or zero mask value, yields no point |
| BackProjection.MaskOnlyRemoves | Utils/point_cloud_tool.py:130 | every pixel kept with a mask is also kept without it |
| BackProjection.NowhereZeroMaskKeepsAll | Utils/point_cloud_tool.py:130 | a mask that is non-zero everywhere yields exactly the unmasked cloud |
| BackProjection.ColorAndDepthPixel | Utils/point_cloud_tool.py:93-99 | one loop step turns the cloud of the pixels visited before (u, v) into the cloud of those up to and including (u, v) |
| BackProjection.ColorAndDepthRow | Utils/point_cloud_tool.py:92-99 | the inner loop turns the cloud of rows 0 .. v - 1 into that of rows 0 .. v |
| BackProjection.ColorAndDepthToPly | Utils/point_cloud_tool.py:81-100 | checks in order: size mismatch gives DimensionMismatch, colour mode not "RGB" gives InvalidColorFormat, depth mode not "I" gives InvalidDepthFormat; otherwise the result is the frame's cloud |
| BackProjection.MaskedPixel | Utils/point_cloud_tool.py:126-134 | one masked loop step extends the cloud by the kept pixel's point and the xyz list by its coordinates, keeping the two aligned |
| BackProjection.MaskedRow | Utils/point_cloud_tool.py:125-134 | the masked inner loop turns the cloud of rows 0 .. v - 1 into that of rows 0 .. v, with the xyz list aligned |
| BackProjection.MaskToPartialPointcloud | Utils/point_cloud_tool.py:112-135 | checks in order: size, colour "RGB", depth "I;16", mask "L", each with its own error; otherwise the masked frame cloud, and an xyz list of equal length whose entry j is the position of point j |
| Fusion.WorldPixel | Utils/point_cloud_tool.py:55-65 | visiting pixel (u, v) of a frame adds the world-frame point pose . (X, Y, Z, 1) exactly when the pixel is kept |
| Fusion.JoinMapPixel | Utils/point_cloud_tool.py:55-65 | one step of join_map's pixel loop appends that pixel's world-frame point when kept and nothing otherwise |
| Fusion.JoinMapRow | Utils/point_cloud_tool.py:54-65 | the inner loop appends the world-frame points of row v's kept pixels |
| Fusion.JoinMapFrame | Utils/point_cloud_tool.py:50-65 | the pixel loops of one frame append that frame's cloud carried through its pose |
| Fusion.JoinMap | Utils/point_cloud_tool.py:44-66 | fails with SequenceLengthMismatch exactly when the pose, colour and depth lists differ in length; otherwise the frame-by-frame concatenation of the world-frame clouds |
| Fusion.JoinMapWithMaskPixel | Utils/point_cloud_tool.py:169-180 | one masked fusion step appends the kept pixel's world-frame point and its coordinates, keeping the two lists aligned |
| Fusion.JoinMapWithMaskRow | Utils/point_cloud_tool.py:168-180 | the masked inner loop appends row v's world-frame points, with the xyz list aligned |
| Fusion.JoinMapWithMaskFrame | Utils/point_cloud_tool.py:164-180 | the masked pixel loops of one frame append its masked cloud carried through its pose, xyz aligned |
| Fusion.JoinMapWithMask | Utils/point_cloud_tool.py:157-181 | fails exactly when the pose, colour, depth and mask lists differ in length; otherwise the concatenated masked world-frame clouds, and an xyz list whose entry j is the position of point j |
| Fusion.FusedCount | Utils/point_cloud_tool.py:49-65 | the fused cloud (the specification of both join functions) has exactly one point per kept pixel of every frame |
| Fusion.TransformedIdentity | Utils/point_cloud_tool.py:62-63 | the identity pose carries every camera point to itself |
| Fusion.FusedPrefix | Utils/point_cloud_tool.py:49 | the fused cloud of i frames is a prefix of the fused cloud of n >= i frames |
| Fusion.FusedFrame | Utils/point_cloud_tool.py:49-65 | frame i's world-frame cloud sits in the fused cloud right after the clouds of frames 0 .. i - 1 |
| Fusion.SingleIdentityFrame | Utils/point_cloud_tool.py:49-65 | one frame at the identity pose fuses to its camera-frame cloud |
| PrincipalAxes.Outer | Utils/point_cloud_tool.py:404 | the outer product of two 3-vectors is a 3x3 matrix |
| PrincipalAxes.CrossFromOuter | Utils/point_cloud_tool.py:404-405 | the antisymmetric entries of outer(axis1, axis2) form axis1 x axis2 |
| PrincipalAxes.FlipTertiary | Utils/point_cloud_tool.py:396-398 | step 1 keeps axes 0 and 1; it negates axis 2 when its z is positive and changes nothing otherwise, so axis 2 ends with z <= 0 |
| PrincipalAxes.FixPrimary | Utils/point_cloud_tool.py:404-416 | step 2 keeps axes 1 and 2; if axis 0 is close to axis1 x axis2 nothing changes, otherwise axis 0 becomes axis1 x axis2 |
| PrincipalAxes.TurnAboutTertiary | Utils/point_cloud_tool.py:420-423 | (C^T . Rz(180))^T negates axes 0 and 1 and keeps axis 2 |
| PrincipalAxes.Reoriented | Utils/point_cloud_tool.py:396-423 | after the three steps axis 2 has z <= 0 and axis 0 has x >= 0 |
| PrincipalAxes.ReorientedUpToSign | Utils/point_cloud_tool.py:396-423 | axes 1 and 2 are the input's up to sign, and axis 2 is exactly the step-1 result: step 3 keeps it |
| PrincipalAxes.ReorientedRightHanded | Utils/point_cloud_tool.py:404-423 | when step 2 replaced axis 0 (or it already was axis1 x axis2) the result has axis 0 = axis 1 x axis 2 |
| PrincipalAxes.ReorientedIdempotent | Utils/point_cloud_tool.py:396-423 | with an exact closeness test, re-orienting a result again changes nothing |
| PrincipalAxes.TurnInPlace | Utils/point_cloud_tool.py:420-423 | overwriting the component array with the turned matrix negates rows 0 and 1 and keeps row 2 |
| PrincipalAxes.CalPca | Utils/point_cloud_tool.py:384-431 | the component array is re-oriented in place when is_show is set and left as it was otherwise |
| Sampling.SqDistZero | Utils/point_cloud_tool.py:476-477 | a squared distance is non-negative and is 0 exactly between equal points |
| Sampling.CalcDistances | Utils/point_cloud_tool.py:476-477 | one squared distance per point, in order (their sign: CalcDistancesSign) |
| Sampling.CalcDistancesSign | Utils/point_cloud_tool.py:476-477 | calc_distances gives one non-negative value per point, 0 exactly at copies of p0 |
| Sampling.Minimum | Utils/point_cloud_tool.py:485 | np.minimum gives one entry per index (their values: MinimumAt) |
| Sampling.MinimumAt | Utils/point_cloud_tool.py:485 | each entry of the element-wise minimum is at most both inputs there and equals one of them |
| Sampling.ArgMax | Utils/point_cloud_tool.py:484 | np.argmax returns an index of the array (which one: ArgMaxIsFirstMax) |
| Sampling.ArgMaxIsFirstMax | Utils/point_cloud_tool.py:484 | argmax returns an index holding the largest value, with every earlier index strictly smaller |
| Sampling.Run | Utils/point_cloud_tool.py:481-485 | after n picks there are n in-range picks, the first is the seed, and there is one running distance per point |
| Sampling.FurthestPointSampling | Utils/point_cloud_tool.py:478-486 | returns K rows, the points at the loop's picks; row 0 is pts[seed] and every row is an input point |
| Sampling.PicksPrefix | Utils/point_cloud_tool.py:483-484 | later iterations only append: the first m of n picks are the picks of m |
| Sampling.PickIsFirstFurthest | Utils/point_cloud_tool.py:484 | pick i has the largest running distance after i picks, and no earlier index has as large a one |
| Sampling.NearestSqDistIsMinimum | Utils/point_cloud_tool.py:485 | the nearest-pick distance is at most the distance to every pick and equals the distance to one of them |
| Sampling.DistancesAreNearest | Utils/point_cloud_tool.py:482-485 | after n picks, distances[j] is the squared distance from pts[j] to its nearest pick |
| Sampling.DistancesAreMinimum | Utils/point_cloud_tool.py:482-485 | after n picks, distances[j] is at most the squared distance to every pick and equal to that of one pick |
| Sampling.PickedHaveZeroDistance | Utils/point_cloud_tool.py:485 | a picked point's running distance is 0 |
| Sampling.UnpickedHavePositiveDistance | Utils/point_cloud_tool.py:485 | for pairwise-distinct points an unpicked point's running distance is positive |
| Sampling.NextIsNew | Utils/point_cloud_tool.py:484 | for distinct points, while fewer than N are picked, argmax picks a new index |
| Sampling.PicksDistinct | Utils/point_cloud_tool.py:483-485 | for pairwise-distinct points and K <= N, no index is picked twice |
| Sampling.SampleAllIsPermutation | Utils/point_cloud_tool.py:478-486 | for pairwise-distinct points and K = N the sample is the whole cloud rearranged (equal multisets) |
| Sampling.RepeatedPointsRepeatPick | Utils/point_cloud_tool.py:483-485 | with a repeated point, [a, b, b] seeded at 0 picks indices 0, 1, 0: all running distances are 0 after two picks and argmax returns the first |
| Sampling.Centroid | Utils/point_cloud_tool.py:221-227 | the centroid is absent exactly for an empty cloud |
| Sampling.CentroidTranslate | Utils/point_cloud_tool.py:224-227 | moving every point by an offset moves the mean by that offset |
| Sampling.CentroidBounds | Utils/point_cloud_tool.py:224-227 | on each axis the mean lies within any bounds all points keep to |
| Sampling.CentroidOfCopies | Utils/point_cloud_tool.py:224-227 | the mean of copies of one point is that point |

## Left out

- The REST server `restapi_server_rgbd.py` is not part of this model: its Flask routes, the RealSense pipeline, the task list and its image writing are HTTP and device I/O.
- File and viewer I/O is left out: `Image.open`, `Image.fromarray`, saving, showing and reading ply files, down-sampling from file, and every `print`. The images are given as values.
- The `"%f %f %f %d %d %d 0"` text form of each point is left out; a point is the record (position, colour), holding the exact values the text prints before `%f` rounds them to six decimals (lines 65, 99, 134, 180).
- The open3d calls are left out as foreign library code: voxel and uniform down-sampling, and statistical and radius outlier removal with their dispatch.
- QuaternionToTfMatrix: the normalisation of the quaternion and the rotation it yields are the abstract parameter `rotationOf`; only the norm-0 rejection is modelled, as an exact test for four zero components.
- sklearn `PCA.fit` and `explained_variance_` are left out; the component matrix is the input of `CalPca`.
- scipy `R.from_quat(...).as_dcm()` is the parameter `rotationOf` of `QuaternionToTfMatrix`.
- TurnInPlace: the scipy `from_dcm`/`as_dcm` round trip of step 3 re-orthonormalises the matrix; the model takes it as exact, which agrees when the components form a proper rotation, as steps 1-2 produce from orthonormal rows; for an orthonormal matrix of determinant -1 `from_dcm` would return a different, proper rotation, while the model keeps the matrix.
- `np.allclose` is the parameter `close` of `CalPca`; its tolerances are not modelled.
- The plotting in `cal_pca` and `show_centriod` are left out.
- Randomness: the random first index of `furthest_point_sampling` is the parameter `seed`. `rotate_point_cloud_z`, `jitter_point_cloud` and `normalize_point_cloud` (random, trigonometric or square-root code) are left out.
- All arithmetic is over exact reals: float rounding, NaN, infinities and numpy integer widths are not modelled.
- Camera.Valid: the model requires non-zero fx and fy on every call, although the code divides by them only at kept pixels, so with a zero focal length it raises ZeroDivisionError only once a pixel is kept, and returns normally when no pixel is kept or a format check fails.
- FrameValid: the code reads the depth image at every colour pixel (lines 56, 95, 128, 170), so a smaller depth image makes `getpixel` raise; it reads the mask only where Z != 0 (lines 130, 171), so a smaller mask raises only when such a pixel lies outside it. The model requires both to cover the colour image on every call.
- MaskToPartialPointcloud requires the mask to cover the colour image once all four checks pass, because the code compares only colour and depth sizes and then reads the mask at every pixel with Z != 0 (line 130); a smaller mask with no such pixel outside it would let the code return its cloud.
- JoinMap and JoinMapWithMask require every frame to be valid (a 4x4 pose and covering images) once the list lengths agree, because the code checks nothing more.
- FurthestPointSampling requires 1 <= K and a seed index inside the cloud: K = 0 raises IndexError in the code, and an empty cloud makes `randint` fail.
- FurthestPointSampling: only the C = 3 column case of `pts.shape` is modelled.
- Centroid returns None for an empty cloud, where numpy's mean yields NaN or an index error.
- FramePointIsPinhole states each point through CameraPoint, the pinhole formula, rather than through X, Y and Z written out; PinholeAt states that those formulas are CameraPoint.
