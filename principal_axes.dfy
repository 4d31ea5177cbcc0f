/** The re-orientation cal_pca applies to the three principal axes of a cloud when is_show is set:
    the third axis is turned to point down, the first axis is made the cross product of the other
    two, and the first axis is turned to point forward by a half turn about the third. */
module PrincipalAxes {
  import opened Geometry

  /** The rows of the PCA component matrix: axis 0, axis 1 and axis 2. */
  datatype Axes = Axes(a0: Vec3, a1: Vec3, a2: Vec3)

  /** The outer product a b^T, as numpy's `outer` computes it on two 3-vectors. */
  function Outer(a: Vec3, b: Vec3): (m: Matrix)
    ensures IsMatrix(m, 3, 3)
  {
    [[a.x * b.x, a.x * b.y, a.x * b.z],
     [a.y * b.x, a.y * b.y, a.y * b.z],
     [a.z * b.x, a.z * b.y, a.z * b.z]]
  }

  /** The antisymmetric part of the outer product, read off as a vector: it is the cross product. */
  function CrossFromOuter(a: Vec3, b: Vec3): (c: Vec3)
    ensures c == Cross(a, b)
  {
    var m := Outer(a, b);
    Vec3(m[1][2] - m[2][1], m[2][0] - m[0][2], m[0][1] - m[1][0])
  }

  const Up: Vec3 := Vec3(0.0, 0.0, 1.0)
  const Forward: Vec3 := Vec3(1.0, 0.0, 0.0)

  lemma DotUp(a: Vec3)
    ensures Dot(a, Up) == a.z
  {
  }

  lemma DotForward(a: Vec3)
    ensures Dot(a, Forward) == a.x
  {
  }

  /** Step 1: axis 2 is negated when its inner product with +Z is positive. */
  function FlipTertiary(ax: Axes): (r: Axes)
    ensures r.a0 == ax.a0 && r.a1 == ax.a1
    ensures r.a2.z <= 0.0
    ensures ax.a2.z > 0.0 ==> r.a2 == Neg(ax.a2)
    ensures ax.a2.z <= 0.0 ==> r == ax
  {
    DotUp(ax.a2);
    if Dot(ax.a2, Up) > 0.0 then ax.(a2 := Neg(ax.a2)) else ax
  }

  /** Step 2: axis 0 is replaced by axis 1 x axis 2 unless the two are already close. */
  function FixPrimary(ax: Axes, close: (Vec3, Vec3) -> bool): (r: Axes)
    ensures r.a1 == ax.a1 && r.a2 == ax.a2
    ensures close(ax.a0, Cross(ax.a1, ax.a2)) ==> r == ax
    ensures !close(ax.a0, Cross(ax.a1, ax.a2)) ==> r.a0 == Cross(ax.a1, ax.a2)
  {
    var xAxis := CrossFromOuter(ax.a1, ax.a2);
    if close(ax.a0, xAxis) then ax else ax.(a0 := xAxis)
  }

  /** The rotation by 180 degrees about z. */
  const HalfTurnZ: Matrix := [[-1.0, 0.0, 0.0], [0.0, -1.0, 0.0], [0.0, 0.0, 1.0]]

  function AxesMatrix(ax: Axes): (m: Matrix)
    ensures IsMatrix(m, 3, 3)
  {
    [[ax.a0.x, ax.a0.y, ax.a0.z], [ax.a1.x, ax.a1.y, ax.a1.z], [ax.a2.x, ax.a2.y, ax.a2.z]]
  }

  function MatrixAxes(m: Matrix): Axes
    requires IsMatrix(m, 3, 3)
  {
    Axes(Vec3(m[0][0], m[0][1], m[0][2]), Vec3(m[1][0], m[1][1], m[1][2]), Vec3(m[2][0], m[2][1], m[2][2]))
  }

  function Transpose3(m: Matrix): (t: Matrix)
    requires IsMatrix(m, 3, 3)
    ensures IsMatrix(t, 3, 3)
    ensures forall i, j :: 0 <= i < 3 && 0 <= j < 3 ==> t[i][j] == m[j][i]
  {
    seq(3, i requires 0 <= i < 3 => seq(3, j requires 0 <= j < 3 => m[j][i]))
  }

  function MatMul3(a: Matrix, b: Matrix): (c: Matrix)
    requires IsMatrix(a, 3, 3) && IsMatrix(b, 3, 3)
    ensures IsMatrix(c, 3, 3)
    ensures forall i, j :: 0 <= i < 3 && 0 <= j < 3 ==> c[i][j] == a[i][0] * b[0][j] + a[i][1] * b[1][j] + a[i][2] * b[2][j]
  {
    seq(3, i requires 0 <= i < 3 =>
      seq(3, j requires 0 <= j < 3 => a[i][0] * b[0][j] + a[i][1] * b[1][j] + a[i][2] * b[2][j]))
  }

  /** Step 3: the component matrix C becomes (C^T . Rz(180))^T, the body frame composed with a
      half turn about its own z axis. For any C this negates axes 0 and 1 and keeps axis 2. */
  function TurnAboutTertiary(ax: Axes): (r: Axes)
    ensures r == Axes(Neg(ax.a0), Neg(ax.a1), ax.a2)
  {
    var h := HalfTurnZ;
    assert h[0][0] == -1.0 && h[1][0] == 0.0 && h[2][0] == 0.0;
    assert h[0][1] == 0.0 && h[1][1] == -1.0 && h[2][1] == 0.0;
    assert h[0][2] == 0.0 && h[1][2] == 0.0 && h[2][2] == 1.0;
    var m := Transpose3(MatMul3(Transpose3(AxesMatrix(ax)), h));
    MatrixAxes(m)
  }

  /** The three steps; step 3 runs when axis 0 then points against +X. Afterwards axis 2 points
      down (or level) and axis 0 points forward (or sideways). */
  function Reoriented(ax: Axes, close: (Vec3, Vec3) -> bool): (r: Axes)
    ensures r.a2.z <= 0.0
    ensures r.a0.x >= 0.0
  {
    var fixed := FixPrimary(FlipTertiary(ax), close);
    DotForward(fixed.a0);
    if Dot(fixed.a0, Forward) < 0.0 then TurnAboutTertiary(fixed) else fixed
  }

  lemma CrossNegLeft(a: Vec3, b: Vec3)
    ensures Cross(Neg(a), b) == Neg(Cross(a, b))
  {
  }

  /** Re-orientation changes axes 1 and 2 at most by their sign, and axis 2 only in step 1:
      step 3 keeps it. */
  lemma ReorientedUpToSign(ax: Axes, close: (Vec3, Vec3) -> bool)
    ensures Reoriented(ax, close).a1 == ax.a1 || Reoriented(ax, close).a1 == Neg(ax.a1)
    ensures Reoriented(ax, close).a2 == FlipTertiary(ax).a2
    ensures Reoriented(ax, close).a2 == ax.a2 || Reoriented(ax, close).a2 == Neg(ax.a2)
  {
  }

  /** When step 2 replaced axis 0, or axis 0 already was axis 1 x axis 2, the result is a
      right-handed triple: step 3 negates axes 0 and 1 together and keeps the cross product. */
  lemma ReorientedRightHanded(ax: Axes, close: (Vec3, Vec3) -> bool)
    requires var f := FlipTertiary(ax); !close(f.a0, Cross(f.a1, f.a2)) || f.a0 == Cross(f.a1, f.a2)
    ensures var r := Reoriented(ax, close); r.a0 == Cross(r.a1, r.a2)
  {
    var fixed := FixPrimary(FlipTertiary(ax), close);
    assert fixed.a0 == Cross(fixed.a1, fixed.a2);
    if Dot(fixed.a0, Forward) < 0.0 {
      CrossNegLeft(fixed.a1, fixed.a2);
    }
  }

  /** With an exact closeness test (close only for equal vectors) re-orienting twice is the same
      as re-orienting once. */
  lemma ReorientedIdempotent(ax: Axes, close: (Vec3, Vec3) -> bool)
    requires forall a, b :: close(a, b) ==> a == b
    ensures Reoriented(Reoriented(ax, close), close) == Reoriented(ax, close)
  {
    var r := Reoriented(ax, close);
    var f := FlipTertiary(ax);
    if close(f.a0, Cross(f.a1, f.a2)) {
      assert f.a0 == Cross(f.a1, f.a2);
    }
    ReorientedRightHanded(ax, close);
    DotUp(r.a2);
    assert FlipTertiary(r) == r;
    assert FixPrimary(r, close) == r;
    DotForward(r.a0);
  }

  /** The component matrix, a 3x3 array, as its three rows. */
  function AxesOf(c: array2<real>): Axes
    requires c.Length0 == 3 && c.Length1 == 3
    reads c
  {
    Axes(Vec3(c[0, 0], c[0, 1], c[0, 2]), Vec3(c[1, 0], c[1, 1], c[1, 2]), Vec3(c[2, 0], c[2, 1], c[2, 2]))
  }

  /** Step 3 in place: the component matrix is replaced by (C^T . Rz(180))^T. */
  method TurnInPlace(components: array2<real>)
    requires components.Length0 == 3 && components.Length1 == 3
    modifies components
    ensures AxesOf(components) == TurnAboutTertiary(old(AxesOf(components)))
  {
    var bodyFrame := Transpose3(AxesMatrix(AxesOf(components)));
    var turned := Transpose3(MatMul3(bodyFrame, HalfTurnZ));
    forall i, j | 0 <= i < 3 && 0 <= j < 3 {
      components[i, j] := turned[i][j];
    }
  }

  /** The re-orientation block of cal_pca on the component matrix in place: nothing happens unless
      isShow is set. */
  method CalPca(components: array2<real>, isShow: bool, close: (Vec3, Vec3) -> bool)
    requires components.Length0 == 3 && components.Length1 == 3
    modifies components
    ensures AxesOf(components) == if isShow then Reoriented(old(AxesOf(components)), close) else old(AxesOf(components))
  {
    if !isShow {
      return;
    }
    ghost var ax := AxesOf(components);
    if Dot(Vec3(components[2, 0], components[2, 1], components[2, 2]), Up) > 0.0 {
      components[2, 0], components[2, 1], components[2, 2] := -components[2, 0], -components[2, 1], -components[2, 2];
    }
    assert AxesOf(components) == FlipTertiary(ax);
    var xAxisMatrix := Outer(Vec3(components[1, 0], components[1, 1], components[1, 2]),
                             Vec3(components[2, 0], components[2, 1], components[2, 2]));
    var xAxis := Vec3(xAxisMatrix[1][2] - xAxisMatrix[2][1], xAxisMatrix[2][0] - xAxisMatrix[0][2],
                      xAxisMatrix[0][1] - xAxisMatrix[1][0]);
    if !close(Vec3(components[0, 0], components[0, 1], components[0, 2]), xAxis) {
      components[0, 0], components[0, 1], components[0, 2] := xAxis.x, xAxis.y, xAxis.z;
    }
    assert AxesOf(components) == FixPrimary(FlipTertiary(ax), close);
    if Dot(Vec3(components[0, 0], components[0, 1], components[0, 2]), Forward) < 0.0 {
      TurnInPlace(components);
    }
  }
}
