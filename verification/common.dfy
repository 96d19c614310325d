/** Small shared datatypes used by several modules of the model. */
module Common {

  /** An optional value: the model's stand-in for a possibly-null reference or an
      uninitialised result. */
  datatype Option<+T> = None | Some(value: T)

  /** Largest value of the 64-bit `size_t` used for positions and counts. */
  const SIZE_MAX: nat := 0xFFFF_FFFF_FFFF_FFFF
}
