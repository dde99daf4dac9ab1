/** The shape of an HTTP response as the Express handlers produce it:
    a status code and a JSON body. */
module Http {

  /** One entry of express-validator's `errors.array()`. */
  datatype FieldError = FieldError(field: string, msg: string)

  datatype Body<+T> =
    | Json(value: T)                       // res.json(value)
    | Message(text: string)                // res.json({ message })
    | ValidationErrors(errors: seq<FieldError>)  // res.json({ errors })

  datatype Response<+T> = Response(status: nat, body: Body<T>)
}
