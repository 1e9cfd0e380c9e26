/** Outcome types shared by every component. */
module Results {

  datatype Option<+T> = None | Some(value: T)

  /** The application errors the modelled handlers return, without their messages. */
  datatype Error =
    | BadRequest
    | Unauthorized
    | NotFound
    | Storage
    | Database

  datatype Result<+T> = Ok(value: T) | Err(error: Error)

  type Byte = b: int | 0 <= b < 256

  type Bytes = seq<Byte>
}
