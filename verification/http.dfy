/** The HTTP-facing shapes shared by the guard and the controller. */
module Http {

  /** The Nest exceptions the core throws, with their messages. */
  datatype HttpException =
    | BadRequest(message: string)
    | Unauthorized(message: string)

  /** `formatResponseData(data)`: the payload and the moment it was built.
      The clock is a parameter (`now`) rather than `Date.now()`. */
  datatype Envelope<T> = Envelope(data: T, timestamps: int)

  function FormatResponseData<T>(data: T, now: int): (r: Envelope<T>)
    ensures r.data == data
    ensures r.timestamps == now
  {
    Envelope(data, now)
  }
}
