/** Vectors and 4x4 homogeneous matrices over exact reals. */
module Geometry {

  /** A point or direction in 3-D space. */
  datatype Vec3 = Vec3(x: real, y: real, z: real)

  function Add(a: Vec3, b: Vec3): Vec3 {
    Vec3(a.x + b.x, a.y + b.y, a.z + b.z)
  }

  function Neg(a: Vec3): Vec3 {
    Vec3(-a.x, -a.y, -a.z)
  }

  function Scale(k: real, a: Vec3): Vec3 {
    Vec3(k * a.x, k * a.y, k * a.z)
  }

  /** The inner product, as numpy's `inner` computes it on two 3-vectors. */
  function Dot(a: Vec3, b: Vec3): real {
    a.x * b.x + a.y * b.y + a.z * b.z
  }

  /** The textbook cross product a x b. */
  function Cross(a: Vec3, b: Vec3): Vec3 {
    Vec3(a.y * b.z - a.z * b.y, a.z * b.x - a.x * b.z, a.x * b.y - a.y * b.x)
  }

  /** Component i (0, 1 or 2) of a vector, for code that indexes vectors. */
  function Component(a: Vec3, i: nat): real
    requires i < 3
  {
    if i == 0 then a.x else if i == 1 then a.y else a.z
  }

  /** A dense matrix stored row by row. */
  type Matrix = seq<seq<real>>

  predicate IsMatrix(m: Matrix, rows: nat, cols: nat) {
    |m| == rows && forall i :: 0 <= i < rows ==> |m[i]| == cols
  }

  function Identity4(): (m: Matrix)
    ensures IsMatrix(m, 4, 4)
  {
    [[1.0, 0.0, 0.0, 0.0],
     [0.0, 1.0, 0.0, 0.0],
     [0.0, 0.0, 1.0, 0.0],
     [0.0, 0.0, 0.0, 1.0]]
  }

  /** The product of a 4x4 matrix with a 4-vector, as numpy's `dot` computes it. */
  function MatVec(m: Matrix, v: seq<real>): (w: seq<real>)
    requires IsMatrix(m, 4, 4) && |v| == 4
    ensures |w| == 4
  {
    seq(4, i requires 0 <= i < 4 => m[i][0] * v[0] + m[i][1] * v[1] + m[i][2] * v[2] + m[i][3] * v[3])
  }

  /** A point mapped by a homogeneous transform, written out per coordinate. */
  function ApplyPose(pose: Matrix, p: Vec3): Vec3
    requires IsMatrix(pose, 4, 4)
  {
    Vec3(pose[0][0] * p.x + pose[0][1] * p.y + pose[0][2] * p.z + pose[0][3],
         pose[1][0] * p.x + pose[1][1] * p.y + pose[1][2] * p.z + pose[1][3],
         pose[2][0] * p.x + pose[2][1] * p.y + pose[2][2] * p.z + pose[2][3])
  }

  /** ApplyPose is the first three components of pose . (x, y, z, 1). */
  lemma ApplyPoseIsProduct(pose: Matrix, p: Vec3)
    requires IsMatrix(pose, 4, 4)
    ensures var h := MatVec(pose, [p.x, p.y, p.z, 1.0]); ApplyPose(pose, p) == Vec3(h[0], h[1], h[2])
  {
    var h := MatVec(pose, [p.x, p.y, p.z, 1.0]);
    assert h[0] == pose[0][0] * p.x + pose[0][1] * p.y + pose[0][2] * p.z + pose[0][3] * 1.0;
    assert h[1] == pose[1][0] * p.x + pose[1][1] * p.y + pose[1][2] * p.z + pose[1][3] * 1.0;
    assert h[2] == pose[2][0] * p.x + pose[2][1] * p.y + pose[2][2] * p.z + pose[2][3] * 1.0;
  }
}
