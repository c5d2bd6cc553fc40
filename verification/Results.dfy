/** Success or failure. The source's error texts are not modelled. */
module Results {
  datatype Result<+T> = Ok(value: T) | Err
}
