/** Small shared vocabulary: the optional value that stands for a nullable pointer. */
module Common {

  /** `None` plays the part of a null pointer, `Some(v)` of a pointer to `v`. */
  datatype Option<+T> = None | Some(value: T)
}
