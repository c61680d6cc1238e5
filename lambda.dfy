/**
 * What the three Lambda handlers share: the invocation event, the response
 * dictionary, Python's truthiness and string rendering of optional values,
 * and the token validator, an external Lambda function given here as a
 * function from its invocation to the `statusCode` it answers.
 */
module Lambda {
  import opened Wrappers
  import opened Dynamo

  /** A JSON object whose values are strings. */
  type Fields = map<string, string>

  /**
   * The event: `headers` (None when the event has no such key),
   * the event's own top-level string entries, the decoded `body`
   * (empty when absent) and `queryStringParameters` (empty when absent).
   */
  datatype Event = Event(headers: Option<Fields>, fields: Fields, body: Fields, queryStringParameters: Fields)

  /** The process environment. */
  type Env = map<string, string>

  /** `d.get(name)`. */
  function Field(d: Fields, name: string): Option<string>
  {
    if name in d then Some(d[name]) else None
  }

  /** Python truthiness of a string that may be None: present and non-empty. */
  predicate Truthy(o: Option<string>)
  {
    o.Some? && o.value != ""
  }

  /** How an f-string renders a string that may be None. */
  function Str(o: Option<string>): string
  {
    match o
    case None => "None"
    case Some(s) => s
  }

  /** `event['headers'].get('Authorization', None)`. */
  function Authorization(headers: Fields): Option<string>
  {
    Field(headers, "Authorization")
  }

  /** The JSON payload sent to the validator: `{"token": t}` or `{"tenant_id": x, "token": t}`. */
  datatype Payload = TokenOnly(token: string) | TenantAndToken(tenantId: Option<string>, token: string)

  datatype Invocation = Invocation(functionName: string, payload: Payload)

  /** The token-validation Lambda, reduced to the `statusCode` of its answer. */
  type Validator = Invocation -> int

  /** The validator's name where a handler hard-codes it. */
  const ValidarTokenAcceso := "ValidarTokenAcceso"

  /** The validator's answer that denies access; every other answer lets the request through. */
  const Denied := 403

  /** What a response carries besides its status. */
  datatype Body =
    | NoBody
    | UpdatedItem(item: Item)          // 'updated_item'
    | PutResponse                      // 'response': the put_item reply, which holds no attributes
    | Items(items: set<Item>)          // 'data'

  datatype Response = Response(statusCode: int, status: string, body: Body)

  /** A response together with the table's items after the invocation. */
  datatype Outcome = Outcome(response: Response, store: Store)

  const UnauthorizedResponse := Response(401, "Unauthorized - Falta el token de autorización", NoBody)
  const ForbiddenResponse := Response(403, "Forbidden - Acceso NO Autorizado", NoBody)
  const InternalErrorResponse := Response(500, "Internal Server Error - Ocurrió un error inesperado", NoBody)
}
