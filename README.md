# Cinema records: a verified model of three Lambda handlers

This project models three AWS Lambda handlers for a per-tenant table of cinema records. Each record is stored under
`(tenant_id, sort key)`, where the sort key is a `#`-joined location path. The model covers the decision pipeline of
each handler:

- **LambdaModificarCine** (update) runs its guards in a fixed order. It checks the token (401), asks the validator
  (403), checks the four addressing fields (400) and checks that the record exists (404). It then builds a `SET`
  clause list from the truthy optional fields, refuses an empty list (400), and partially updates the one addressed
  record. It answers 200 with the whole new record.
- **LambdaCrearCine** (create) reads ten keys of the event. It refuses a request only when *all* of them are empty
  (400), and it does so before looking at the token. It builds the four-segment key `pais#departamento#provincia#distrito`.
  It then runs the token guards (401, 403) and puts a seven-attribute item, replacing any record at that key (201).
- **LambdaBuscarCine** (search) checks the token and asks the validator, sending it both tenant and token. It builds
  the prefix `departamento#provincia#distrito`, in which an absent parameter is rendered as `None`. It then queries the
  tenant's partition with `begins_with`, never changing the table (200, possibly with no items).

The table is a class `Dynamo.Table`. It has a key schema: the partition key `tenant_id` and a sort-key attribute name,
which is a parameter. Its items are a `map` from key to attribute map. `put_item`, `get_item`, `update_item` and
`query` are specified by pure functions (`Put`, `Fetch`, `Update`, `Query`). These functions include DynamoDB's
validation errors:

- a key argument that does not name exactly the schema's attributes;
- an empty key value;
- an update expression that sets a key attribute.

Any such error, like any exception in the handlers, becomes the 500 response. The token validator is a function from
the invocation (function name and payload) to the `statusCode` it answers.

Each handler has two forms:

- a pure `Handle` function, giving the response and the store afterwards;
- an imperative `LambdaHandler` method that takes the `Table`, with early returns in source order, proved equal to `Handle`.

The update handler's clause builder (`BuildUpdateExpression`) is a method with the source's six conditional blocks.
It is proved to build exactly the clauses and value bindings of the truthy optional fields, in order.

The model keeps these behaviours of the code:

- Search renders an absent parameter as the text `None` inside the prefix.
- Search answers 200 with no items when nothing matches; it never answers 404.
- Create refuses a request with 400 only when all ten values are empty; one non-empty value passes that guard.
- Create's 201 answer carries the put_item response, not the written item.
- Update and Create use the sort-key attribute `ordenamiento`, while Search queries `cine_id`.

Because of the last point, the model proves that on one table Create and Search cannot both succeed
(`Interplay.NoSchemaServesCreateAndSearch`). It also proves that with `#`-free segments a record created with a
four-segment key is never the one an update request addresses with its three-segment key
(`Interplay.CreatedRecordNotAddressedByUpdate`).

## Model

| member | source | states |
|---|---|---|
| SortKey.Join | LambdaModificarCine.py:55 | definition: the segments with one `#` between neighbours, as the f-strings `f"{a}#{b}#{c}"` and `f"{a}#{b}#{c}#{d}"` render them |
| SortKey.SplitJoin | LambdaModificarCine.py:55 | splitting a key built from `#`-free segments at `#` gives back exactly those segments (the key is a faithful encoding) |
| SortKey.JoinInjective | LambdaModificarCine.py:55 | two keys built from `#`-free segment lists are equal only if the segment lists are equal |
| SortKey.JoinSeparators | LambdaCrearCine.py:27 | a key joined from n segments has at least n-1 separators and, for n >= 2, length at least n-1, even when segments are empty |
| Dynamo.Fetch | LambdaModificarCine.py:62-68 | definition: get_item fails unless the key argument names exactly the schema's two key attributes with non-empty values; otherwise it answers the stored item at that key, or no item |
| Dynamo.Put | LambdaCrearCine.py:57-67 | put_item succeeds exactly when the item carries both key attributes non-empty, and keeps every item stored under its own key |
| Dynamo.ApplySetEffect | LambdaModificarCine.py:103-111 | a SET list with distinct attributes gives each named attribute its bound value, adds exactly the named attributes and leaves every other attribute unchanged |
| Dynamo.Update | LambdaModificarCine.py:103-111 | a successful update_item keeps every item stored under its own key |
| Dynamo.Matching | LambdaBuscarCine.py:59-70 | definition: the items of the store whose partition value equals the given one and whose sort key starts with the prefix, when a prefix is given |
| Dynamo.Query | LambdaBuscarCine.py:67-70 | definition: query fails when the condition names an attribute outside the key schema or gives no or an empty partition value; otherwise it answers `Matching` for the partition and the `begins_with` prefix |
| Dynamo.QueryResultKeys | LambdaBuscarCine.py:67-70 | every item a prefix query returns has the queried partition value and a sort key starting with the prefix |
| Dynamo.Table.GetItem | LambdaModificarCine.py:62-68 | the table call answers what `Fetch` specifies for its current items, and has no `modifies` clause, so it changes nothing |
| Dynamo.Table.QueryItems | LambdaBuscarCine.py:67-70 | the table call answers what `Query` specifies for its current items, and has no `modifies` clause, so it changes nothing |
| Dynamo.Table.PutItem | LambdaCrearCine.py:57-67 | on success the table maps the item's key to the whole item and nothing else changes; on failure the table is unchanged; the table invariant is kept |
| Dynamo.Table.UpdateItem | LambdaModificarCine.py:103-111 | the table afterwards and the returned item are those of `Update` (ALL_NEW); on failure the table is unchanged; the table invariant is kept |
| ModificarCine.Ordenamiento | LambdaModificarCine.py:55 | definition: `departamento#provincia#distrito` from the body's values |
| ModificarCine.KeyArgumentOf | LambdaModificarCine.py:63-66 | definition: the key argument maps `tenant_id` to the body's tenant and `ordenamiento` to the built key |
| ModificarCine.Supplied | LambdaModificarCine.py:77-94 | the attributes selected are exactly the listed ones whose body value is truthy, in list order and without repeats |
| ModificarCine.BoundValuesSpec | LambdaModificarCine.py:76-94 | the value map binds exactly `:a` for each selected attribute a, to the body's value of a |
| ModificarCine.BlockKeepsBuilt | LambdaModificarCine.py:77-79 | one conditional block appends a clause and a binding exactly when its field is truthy, keeping clauses and values equal to those of the fields handled so far |
| ModificarCine.BuildUpdateExpression | LambdaModificarCine.py:75-94 | the clause list and the value map are exactly those of the truthy optional fields, in the order nombre, direccion, contacto, horario_apertura, horario_cierre, imagen |
| ModificarCine.ExpressionWellFormed | LambdaModificarCine.py:75-94 | a non-empty clause list is one DynamoDB accepts: every placeholder bound, no key attribute set, no attribute twice, no unused value |
| ModificarCine.AssignedSupplied | LambdaModificarCine.py:75-94 | the clauses assign exactly the optional attributes whose body value is truthy |
| ModificarCine.SetSuppliedEffect | LambdaModificarCine.py:75-111 | applying the built clauses to a record sets exactly the supplied attributes to the supplied values and keeps every other attribute |
| ModificarCine.KeyArgumentAccepted | LambdaModificarCine.py:55-67 | the key argument `{tenant_id, ordenamiento}` addresses the record `(tenant_id, departamento#provincia#distrito)` exactly when the table's sort key is `ordenamiento`, and is refused otherwise |
| ModificarCine.Handle | LambdaModificarCine.py:5-125 | the status is one of 200, 400, 401, 403, 404, 500; every non-200 leaves the store unchanged; 401 and 403 hold exactly under the token and validator conditions; 200 and 404 only after all guards pass on an `ordenamiento` table; 200 only when the record exists and some field is supplied; 404 only when it does not exist |
| ModificarCine.UnauthorizedBeforeAnything | LambdaModificarCine.py:10-15 | a missing or empty token gives 401 with the store unchanged, whatever the store, schema, environment and validator |
| ModificarCine.ForbiddenBeforeStore | LambdaModificarCine.py:17-30 | a validator answer of 403 to `{"token"}` sent to ValidarTokenAcceso gives 403 with the store unchanged, independently of store, schema and environment |
| ModificarCine.MissingFieldsIsBadRequest | LambdaModificarCine.py:48-52 | after the auth guards, any falsy tenant_id, departamento, provincia or distrito gives 400 and no change |
| ModificarCine.MissingRecordIsNotFound | LambdaModificarCine.py:62-72 | a missing record gives 404 with no write, even when no optional field is supplied |
| ModificarCine.NothingSuppliedIsBadRequest | LambdaModificarCine.py:96-100 | an existing record with no truthy optional field gives 400 and no change |
| ModificarCine.OtherSchemaIsInternalError | LambdaModificarCine.py:62-67 | on a table whose sort key is not `ordenamiento`, every request that passes the guards gives 500 and no change |
| ModificarCine.UpdatesOnlySuppliedAttributes | LambdaModificarCine.py:103-118 | on success the answer is 200 carrying the whole new record; only the addressed record changes, and in it exactly the supplied attributes get the supplied values |
| ModificarCine.LambdaHandler | LambdaModificarCine.py:5-125 | the imperative handler returns the response of `Handle` and leaves the table holding `Handle`'s store, keeping the table invariant |
| CrearCine.Ordenamiento | LambdaCrearCine.py:27 | definition: `pais#departamento#provincia#distrito` from the event's values, empty values giving empty segments |
| CrearCine.NewItem | LambdaCrearCine.py:57-67 | the written item has exactly the attributes tenant_id, ordenamiento, nombre, direccion, contacto, horario_apertura, horario_cierre with the event's values and the built key; pais, departamento, provincia, distrito and imagen are not stored |
| CrearCine.OrdenamientoHasFourSegments | LambdaCrearCine.py:27 | the key always has at least three separators (so it is never empty); with `#`-free values it splits back into exactly pais, departamento, provincia, distrito |
| CrearCine.Handle | LambdaCrearCine.py:4-81 | the status is one of 201, 400, 401, 403, 500; every non-201 leaves the store unchanged; 400 holds exactly when all ten values are empty; 401 and 403 hold exactly under their conditions, which include passing the 400 guard; 201 replaces the record at the item's key with the new item |
| CrearCine.EmptyRequestBeforeToken | LambdaCrearCine.py:20-35 | an all-empty request gives 400 whatever the headers, because that guard runs before the token check |
| CrearCine.AuthFailureLeavesStore | LambdaCrearCine.py:30-50 | a missing token or a validator denial gives 401 or 403, with the same response for any store and schema, and no write |
| CrearCine.AdmittedWithTenantCreates | LambdaCrearCine.py:20-74 | a non-empty tenant alone passes the 400 guard: with an accepted token the answer is 201 and the record at `(tenant_id, pais#departamento#provincia#distrito)` becomes the new item, whatever the other values |
| CrearCine.EmptyTenantIsInternalError | LambdaCrearCine.py:57-81 | an empty tenant passes the guards but the put is refused: 500, no change |
| CrearCine.MissingKeyIsInternalError | LambdaCrearCine.py:9-18 | a missing event key gives 500 before any guard, with no change |
| CrearCine.SecondCreateOverwrites | LambdaCrearCine.py:57-74 | two successful creates at the same key leave only the second item there and every other record as it was before the first |
| CrearCine.LambdaHandler | LambdaCrearCine.py:4-81 | the imperative handler returns the response of `Handle` and leaves the table holding `Handle`'s store, keeping the table invariant |
| BuscarCine.Prefix | LambdaBuscarCine.py:56 | definition: `departamento#provincia#distrito` from the query parameters, each absent one rendered as `None` |
| BuscarCine.Condition | LambdaBuscarCine.py:59-64 | definition: the condition `tenant_id = <tenant_id parameter>`, extended with `begins_with(cine_id, prefix)` when the prefix is non-empty |
| BuscarCine.PrefixNeverEmpty | LambdaBuscarCine.py:56-64 | the prefix has at least two separators, so it is never empty and the `begins_with` condition on `cine_id` is always added |
| BuscarCine.OmittedDistrictMatchesOnlyNone | LambdaBuscarCine.py:56 | with distrito absent, a key `departamento#provincia#x` matches the prefix exactly when x starts with "None" |
| BuscarCine.Handle | LambdaBuscarCine.py:5-84 | the status is one of 200, 401, 403, 500, never 404; 401 holds exactly for a missing or empty token; 403 holds exactly when the validator denies `{tenant_id, token}`; 200 only on a `cine_id` table with a non-empty tenant, carrying exactly the tenant's items whose key starts with the prefix |
| BuscarCine.UnauthorizedBeforeAnything | LambdaBuscarCine.py:10-15 | a missing or empty token gives 401 whatever the parameters, store, schema, environment and validator |
| BuscarCine.FindsExactlyMatching | LambdaBuscarCine.py:59-77 | an admitted search with a tenant on a `cine_id` table answers 200 with exactly the matching items, and 200 with no items when no key matches |
| BuscarCine.ResultsCarryTenantAndPrefix | LambdaBuscarCine.py:59-70 | every returned item has the requested tenant_id and a cine_id starting with the prefix |
| BuscarCine.MissingTenantIsInternalError | LambdaBuscarCine.py:59-84 | an admitted search without a tenant_id (or with an empty one) gives 500, never an empty list |
| BuscarCine.OtherSchemaIsInternalError | LambdaBuscarCine.py:62-70 | on a table whose sort key is not `cine_id`, every admitted search gives 500 |
| BuscarCine.LambdaHandler | LambdaBuscarCine.py:5-84 | the imperative handler, with no `modifies` clause, returns the response of `Handle` |
| Interplay.CreatedRecordNotAddressedByUpdate | LambdaCrearCine.py:27 | with `#`-free segments, the four-segment key of a created record differs from every three-segment key an update addresses |
| Interplay.NoSchemaServesCreateAndSearch | LambdaCrearCine.py:57-67 | on any one table Create cannot answer 201 and Search answer 200, since they use different sort-key attributes |
| Interplay.NoSchemaServesUpdateAndSearch | LambdaModificarCine.py:62-67 | on any one table Update cannot answer 200 and Search answer 200 |

## Left out

- The boto3 clients, `lambda_client.invoke` and the DynamoDB resource. The validator is a function parameter and the table a class holding a map.
- Failures of those calls other than DynamoDB's validation errors are not modelled. These include a failing `invoke`, throttling, access denied, and a `TABLE_NAME_CINES` that names a missing table. In the code each of them reaches the catch-all and gives 500 with no write. In the model the validator always answers and a table call fails only with a validation error, so "an exception gives 500 with the store unchanged" is proved only for the failures the model has.
- JSON encoding and decoding of the body and the payloads. Event values are taken to be strings; other JSON types, and a body that is not JSON, are not modelled.
- `print` logging.
- Environment lookups are modelled only as "present or not" (a missing variable is the 500 path). The table name is not modelled: each `Table` value stands for the table the handler opens, including the hard-coded `tp_cines` of the create handler.
- A validator answer without `statusCode`, which raises KeyError and so a 500 in every handler, is not modelled. The validator always answers some status.
- A `None` `queryStringParameters` value (AttributeError, then 500) is not modelled. An absent one is the empty map.
- The DynamoDB expression strings (`"SET " + ", ".join(...)`, the `KeyConditionExpression` text) are modelled as a clause list and a condition value, not as text.
- The create handler's 201 answer carries the put_item response, which is modelled as an opaque `PutResponse` body.
- BuscarCine.FindsExactlyMatching: the result is the set of matching items. It does not model the order DynamoDB returns them in, nor the 1 MB page limit of a single query, beyond which the handler (which does not paginate) would return only the first page.
- Dynamo.Update: `update_item` on a key with no record creates one from the key attributes. This matters only for the unreachable case after the existence check, because concurrency between the get and the update is not modelled.
- Concurrency between invocations and DynamoDB consistency semantics are not modelled. Each invocation runs alone.
