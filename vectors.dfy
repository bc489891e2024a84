/** Unity's Vector3, over the reals (float rounding is not modelled). */
module Vectors {

  datatype Vec3 = Vec3(x: real, y: real, z: real)

  /** Vector3.zero */
  const Zero: Vec3 := Vec3(0.0, 0.0, 0.0)

  /** Vector3.forward, the world's +z axis */
  const Forward: Vec3 := Vec3(0.0, 0.0, 1.0)

  function Add(a: Vec3, b: Vec3): Vec3
  {
    Vec3(a.x + b.x, a.y + b.y, a.z + b.z)
  }

  function Scale(a: Vec3, k: real): Vec3
  {
    Vec3(a.x * k, a.y * k, a.z * k)
  }

  function Dot(a: Vec3, b: Vec3): real
  {
    a.x * b.x + a.y * b.y + a.z * b.z
  }

  /** Dotting with Vector3.forward reads off the z component. */
  lemma DotForward(v: Vec3)
    ensures Dot(Forward, v) == v.z
  {
  }
}
