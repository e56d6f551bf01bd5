/** Small value types shared by the other modules. */
module Base {

  /** A value that may be absent, as JavaScript's `null` for a not-yet-set variable. */
  datatype Option<+T> = None | Some(value: T)

  /** A three-component vector (`THREE.Vector3`), with exact reals in place of floats. */
  datatype Vec3 = Vec3(x: real, y: real, z: real)
}
