/** Building the 4x4 homogeneous transform of a camera pose given as (x, y, z, qx, qy, qz, qw). */
module PoseCodec {
  import opened Geometry
  import opened CloudTypes

  /** The matrix held by a 4x4 array, row by row. */
  function RowsOf(t: array2<real>): (m: Matrix)
    requires t.Length0 == 4 && t.Length1 == 4
    reads t
    ensures IsMatrix(m, 4, 4)
    ensures forall i, j :: 0 <= i < 4 && 0 <= j < 4 ==> m[i][j] == t[i, j]
  {
    seq(4, i requires 0 <= i < 4 reads t => seq(4, j requires 0 <= j < 4 reads t => t[i, j]))
  }

  /** A quaternion of norm 0: every component is 0. */
  predicate ZeroNorm(q: seq<real>) {
    forall i :: 0 <= i < |q| ==> q[i] == 0.0
  }

  /** The pose matrix of a 7-value pose. The rotation that a quaternion stands for is computed
      by a library outside this model, which normalises the quaternion and rejects one of norm 0;
      `rotationOf` is that conversion on non-zero quaternions, applied to the last four values.
      Anything but 7 values is rejected first. */
  method QuaternionToTfMatrix(quaternion: seq<real>, rotationOf: seq<real> -> Matrix) returns (r: Result<Matrix>)
    requires |quaternion| == 7 && !ZeroNorm(quaternion[3..]) ==> IsMatrix(rotationOf(quaternion[3..]), 3, 3)
    ensures r.Err? <==> |quaternion| != 7 || ZeroNorm(quaternion[3..])
    ensures |quaternion| != 7 ==> r == Err(InvalidPoseFormat)
    ensures |quaternion| == 7 && ZeroNorm(quaternion[3..]) ==> r == Err(ZeroNormQuaternion)
    ensures r.Ok? ==> IsMatrix(r.value, 4, 4)
    // the rotation block is the converted quaternion
    ensures r.Ok? ==> forall i, j :: 0 <= i < 3 && 0 <= j < 3 ==>
                        r.value[i][j] == rotationOf(quaternion[3..])[i][j]
    // column 3 holds the translation
    ensures r.Ok? ==> forall i :: 0 <= i < 3 ==> r.value[i][3] == quaternion[i]
    // the bottom row is (0, 0, 0, 1)
    ensures r.Ok? ==> r.value[3] == [0.0, 0.0, 0.0, 1.0]
  {
    if |quaternion| != 7 {
      return Err(InvalidPoseFormat);
    }
    if ZeroNorm(quaternion[3..]) {
      return Err(ZeroNormQuaternion);
    }
    var t := new real[4, 4]((i, j) => 0.0);
    var translation := quaternion[..3];
    var rotation := rotationOf(quaternion[3..]);
    // t[0:3, 0:3] = rotation
    for i := 0 to 3
      invariant forall a, b :: 0 <= a < i && 0 <= b < 3 ==> t[a, b] == rotation[a][b]
    {
      for j := 0 to 3
        invariant forall a, b :: 0 <= a < i && 0 <= b < 3 ==> t[a, b] == rotation[a][b]
        invariant forall b :: 0 <= b < j ==> t[i, b] == rotation[i][b]
      {
        t[i, j] := rotation[i][j];
      }
    }
    // t[0:3, 3] = translation
    for i := 0 to 3
      invariant forall a, b :: 0 <= a < 3 && 0 <= b < 3 ==> t[a, b] == rotation[a][b]
      invariant forall a :: 0 <= a < i ==> t[a, 3] == translation[a]
    {
      t[i, 3] := translation[i];
    }
    // t[3, :] = (0, 0, 0, 1)
    var bottom := [0.0, 0.0, 0.0, 1.0];
    for j := 0 to 4
      invariant forall a, b :: 0 <= a < 3 && 0 <= b < 3 ==> t[a, b] == rotation[a][b]
      invariant forall a :: 0 <= a < 3 ==> t[a, 3] == translation[a]
      invariant forall b :: 0 <= b < j ==> t[3, b] == bottom[b]
    {
      t[3, j] := bottom[j];
    }
    var m := RowsOf(t);
    assert m[3] == bottom;
    return Ok(m);
  }

  /** A pose built from a translation and a rotation block maps p to rotation . p + translation. */
  lemma PoseIsRigidMotion(m: Matrix, rotation: Matrix, translation: Vec3, p: Vec3)
    requires IsMatrix(m, 4, 4) && IsMatrix(rotation, 3, 3)
    requires forall i, j :: 0 <= i < 3 && 0 <= j < 3 ==> m[i][j] == rotation[i][j]
    requires m[0][3] == translation.x && m[1][3] == translation.y && m[2][3] == translation.z
    ensures ApplyPose(m, p) ==
            Add(Vec3(Dot(Vec3(rotation[0][0], rotation[0][1], rotation[0][2]), p),
                     Dot(Vec3(rotation[1][0], rotation[1][1], rotation[1][2]), p),
                     Dot(Vec3(rotation[2][0], rotation[2][1], rotation[2][2]), p)),
                translation)
  {
    assert m[0][0] == rotation[0][0] && m[0][1] == rotation[0][1] && m[0][2] == rotation[0][2];
    assert m[1][0] == rotation[1][0] && m[1][1] == rotation[1][1] && m[1][2] == rotation[1][2];
    assert m[2][0] == rotation[2][0] && m[2][1] == rotation[2][1] && m[2][2] == rotation[2][2];
  }
}
