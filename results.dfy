/** Option and Result: the null returns and thrown errors of the modelled utilities. */
module Results {

  /** `None` stands for JavaScript's null (or NaN, where a number is expected). */
  datatype Option<+T> = None | Some(value: T)

  /** `Err` carries the message of the Error the source throws. */
  datatype Result<+T> = Ok(value: T) | Err(message: string)
}
