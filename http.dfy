/** What an Express handler sends back: a status and a JSON body, or a redirect. */
module Http {
  import opened Json

  /** `{ name: value }`. */
  function Field(name: string, value: Json): Json {
    JObj([(name, value)])
  }

  /** `res.status(status).json(body)`. */
  datatype Response = Response(status: int, body: Json)

  /** `res.status(status).json({ error: message })`. */
  function ErrorResponse(status: int, message: string): Response {
    Response(status, Field("error", JStr(message)))
  }
}
