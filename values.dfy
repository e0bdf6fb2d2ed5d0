/** Value types shared by the model of the s3tethys helpers. */
module Values {

  /** A byte of an object body or of a local file. */
  type byte = bv8

  datatype Option<+T> = None | Some(value: T)

  datatype Result<+T, +E> = Ok(value: T) | Err(error: E)

  /** An argument whose Python type the helpers test with `isinstance`:
      `None`, a value of the expected type, or a value of some other type. */
  datatype Arg<+T> = Absent | Given(value: T) | OtherType
}
