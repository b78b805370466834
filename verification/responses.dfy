/** Responses of POST /api/orders, and the JSON column that stores them. */
module Responses {
  import opened Catalogue

  datatype Body =
    | OrderCreated(orderId: OrderId, order: Order)
    | ErrorBody(code: string)

  datatype Response = Response(status: nat, body: Body)

  /** `JSON.stringify` and `JSON.parse`. */
  datatype Codec = Codec(stringify: Body -> string, parse: string -> Body)

  ghost predicate Lawful(codec: Codec) {
    forall b :: codec.parse(codec.stringify(b)) == b
  }

  /** How the database driver hands back a JSON column. */
  datatype Column = Text(text: string) | Object(body: Body)

  datatype Form = AsText | AsObject

  function ReadBack(codec: Codec, form: Form, body: Body): Column {
    if form.AsText? then Text(codec.stringify(body)) else Object(body)
  }

  /** `typeof responseBody === "string" ? JSON.parse(responseBody) : responseBody`. */
  function ReplayBody(codec: Codec, column: Column): Body {
    match column
    case Text(text) => codec.parse(text)
    case Object(body) => body
  }
}
