/**
 * LambdaCrearCine: create (or silently replace) one cinema record. The
 * fields are read from the event itself, the empty-request guard and the
 * four-segment sort key come before the token check, and the write is an
 * unconditional put of a seven-attribute item.
 */
module CrearCine {
  import opened Wrappers
  import opened Dynamo
  import opened Lambda
  import SortKey

  /** The sort-key attribute this handler writes. */
  const SortKeyName := "ordenamiento"

  /** The attributes of the written item. */
  const Written := {"tenant_id", "ordenamiento", "nombre", "direccion", "contacto", "horario_apertura", "horario_cierre"}

  const IncompleteResponse := Response(400, "Bad Request - Faltan datos por completar", NoBody)
  const CreatedResponse := Response(201, "Cine creado exitosamente", PutResponse)

  /** The ten event keys read first; a missing one raises KeyError. */
  predicate AllPresent(fields: Fields)
  {
    && "tenant_id" in fields && "pais" in fields && "departamento" in fields && "provincia" in fields
    && "distrito" in fields && "nombre" in fields && "direccion" in fields && "contacto" in fields
    && "horario_apertura" in fields && "horario_cierre" in fields
  }

  /** The 400 guard: every one of the ten values is falsy. */
  predicate AllEmpty(fields: Fields)
    requires AllPresent(fields)
  {
    && fields["tenant_id"] == "" && fields["pais"] == "" && fields["departamento"] == ""
    && fields["provincia"] == "" && fields["distrito"] == "" && fields["nombre"] == ""
    && fields["direccion"] == "" && fields["contacto"] == "" && fields["horario_apertura"] == ""
    && fields["horario_cierre"] == ""
  }

  /** `f"{pais}#{departamento}#{provincia}#{distrito}"`. */
  function Ordenamiento(fields: Fields): string
    requires AllPresent(fields)
  {
    SortKey.Join([fields["pais"], fields["departamento"], fields["provincia"], fields["distrito"]])
  }

  /** The item of lines 58-66. */
  function NewItem(fields: Fields): (item: Item)
    requires AllPresent(fields)
    ensures item.Keys == Written
    ensures "pais" !in item && "departamento" !in item && "provincia" !in item && "distrito" !in item && "imagen" !in item
    ensures forall a :: a in Written && a != SortKeyName ==> item[a] == fields[a]
    ensures item[SortKeyName] == Ordenamiento(fields)
  {
    map[PartitionKey := fields["tenant_id"],
        SortKeyName := Ordenamiento(fields),
        "nombre" := fields["nombre"],
        "direccion" := fields["direccion"],
        "contacto" := fields["contacto"],
        "horario_apertura" := fields["horario_apertura"],
        "horario_cierre" := fields["horario_cierre"]]
  }

  /** The request carries a token and the validator does not deny it. */
  predicate Admitted(event: Event, validate: Validator)
  {
    && event.headers.Some?
    && Truthy(Authorization(event.headers.value))
    && validate(Invocation(ValidarTokenAcceso, TokenOnly(Authorization(event.headers.value).value))) != Denied
  }

  /** The handler as a function of the table's key schema and items. */
  function Handle(sortKey: string, store: Store, event: Event, validate: Validator): (r: Outcome)
    ensures r.response.statusCode in {201, 400, 401, 403, 500}
    ensures r.response.statusCode != 201 ==> r.store == store
    ensures r.response.statusCode == 400 <==> AllPresent(event.fields) && AllEmpty(event.fields)
    ensures r.response.statusCode == 401 <==>
      && AllPresent(event.fields) && !AllEmpty(event.fields)
      && event.headers.Some? && !Truthy(Authorization(event.headers.value))
    ensures r.response.statusCode == 403 <==>
      && AllPresent(event.fields) && !AllEmpty(event.fields)
      && event.headers.Some? && Truthy(Authorization(event.headers.value))
      && validate(Invocation(ValidarTokenAcceso, TokenOnly(Authorization(event.headers.value).value))) == Denied
    ensures r.response.statusCode == 201 ==>
      && AllPresent(event.fields) && !AllEmpty(event.fields) && Admitted(event, validate)
      && ItemKey(sortKey, NewItem(event.fields)).Some?
      && r.store == store[ItemKey(sortKey, NewItem(event.fields)).value := NewItem(event.fields)]
  {
    if !AllPresent(event.fields) then Outcome(InternalErrorResponse, store)
    else if AllEmpty(event.fields) then Outcome(IncompleteResponse, store)
    else
      var ordenamiento := Ordenamiento(event.fields);
      if event.headers.None? then Outcome(InternalErrorResponse, store)
      else
        var token := Authorization(event.headers.value);
        if !Truthy(token) then Outcome(UnauthorizedResponse, store)
        else if validate(Invocation(ValidarTokenAcceso, TokenOnly(token.value))) == Denied then Outcome(ForbiddenResponse, store)
        else
          match Put(sortKey, store, NewItem(event.fields))
          case Failure(_) => Outcome(InternalErrorResponse, store)
          case Success(written) => Outcome(CreatedResponse, written)
  }

  /** The key a created record is stored under when the table's sort key is `ordenamiento`. */
  function RecordKey(fields: Fields): Key
    requires AllPresent(fields)
  {
    (fields["tenant_id"], Ordenamiento(fields))
  }

  /** The sort key always has four segments, even when some are empty, so it is never empty. */
  lemma OrdenamientoHasFourSegments(fields: Fields)
    requires AllPresent(fields)
    ensures SortKey.Separators(Ordenamiento(fields)) >= 3 && |Ordenamiento(fields)| >= 3
    ensures SortKey.Plain([fields["pais"], fields["departamento"], fields["provincia"], fields["distrito"]]) ==>
      SortKey.Split(Ordenamiento(fields)) == [fields["pais"], fields["departamento"], fields["provincia"], fields["distrito"]]
  {
    var segments := [fields["pais"], fields["departamento"], fields["provincia"], fields["distrito"]];
    SortKey.JoinSeparators(segments);
    if SortKey.Plain(segments) {
      SortKey.SplitJoin(segments);
    }
  }

  /** An all-empty request is a 400 even without headers or token: that guard runs first. */
  lemma EmptyRequestBeforeToken(sortKey: string, store: Store, event: Event, validate: Validator, headers: Option<Fields>)
    requires AllPresent(event.fields) && AllEmpty(event.fields)
    ensures Handle(sortKey, store, event.(headers := headers), validate) == Outcome(IncompleteResponse, store)
  {
  }

  /** A missing token or a denial never reaches the store, whatever the store and schema. */
  lemma AuthFailureLeavesStore(sortKey: string, store: Store, event: Event, validate: Validator, sortKey': string, store': Store)
    requires AllPresent(event.fields) && !AllEmpty(event.fields) && event.headers.Some? && !Admitted(event, validate)
    ensures Handle(sortKey, store, event, validate).store == store
    ensures Handle(sortKey, store, event, validate).response == Handle(sortKey', store', event, validate).response
    ensures Handle(sortKey, store, event, validate).response.statusCode in {401, 403}
  {
  }

  /**
   * A non-empty tenant alone passes the 400 guard: with a token the
   * validator accepts, the record is written (replacing any record at its
   * key) and the answer is 201, whatever the other nine values are.
   */
  lemma AdmittedWithTenantCreates(store: Store, event: Event, validate: Validator)
    requires AllPresent(event.fields) && Admitted(event, validate)
    requires event.fields["tenant_id"] != ""
    ensures var r := Handle(SortKeyName, store, event, validate);
      && r.response == CreatedResponse
      && r.store == store[RecordKey(event.fields) := NewItem(event.fields)]
  {
    OrdenamientoHasFourSegments(event.fields);
  }

  /** An empty tenant passes the guard but DynamoDB refuses the empty partition key: 500. */
  lemma EmptyTenantIsInternalError(sortKey: string, store: Store, event: Event, validate: Validator)
    requires AllPresent(event.fields) && !AllEmpty(event.fields) && Admitted(event, validate)
    requires event.fields["tenant_id"] == ""
    ensures Handle(sortKey, store, event, validate) == Outcome(InternalErrorResponse, store)
  {
  }

  /** A missing event key is a 500 before anything else, with the store unchanged. */
  lemma MissingKeyIsInternalError(sortKey: string, store: Store, event: Event, validate: Validator)
    requires !AllPresent(event.fields)
    ensures Handle(sortKey, store, event, validate) == Outcome(InternalErrorResponse, store)
  {
  }

  /**
   * Create overwrites: two creates for the same tenant and location leave
   * only the second request's record there, and every other record as it was.
   */
  lemma SecondCreateOverwrites(store: Store, first: Event, second: Event, validate: Validator)
    requires AllPresent(first.fields) && AllPresent(second.fields)
    requires Handle(SortKeyName, store, first, validate).response.statusCode == 201
    requires Handle(SortKeyName, Handle(SortKeyName, store, first, validate).store, second, validate).response.statusCode == 201
    requires RecordKey(first.fields) == RecordKey(second.fields)
    ensures var final := Handle(SortKeyName, Handle(SortKeyName, store, first, validate).store, second, validate).store;
      && final == store[RecordKey(second.fields) := NewItem(second.fields)]
      && final[RecordKey(second.fields)] == NewItem(second.fields)
  {
    var mid := Handle(SortKeyName, store, first, validate).store;
    assert mid == store[RecordKey(first.fields) := NewItem(first.fields)];
  }

  /**
   * The imperative handler: reads, guards and the key in source order,
   * then put_item on the table.
   */
  method LambdaHandler(table: Table, event: Event, validate: Validator) returns (response: Response)
    requires table.Valid()
    modifies table
    ensures table.Valid()
    ensures var r := Handle(table.sortKey, old(table.items), event, validate);
      response == r.response && table.items == r.store
  {
    var fields := event.fields;
    if !AllPresent(fields) {
      return InternalErrorResponse;
    }
    var tenantId, pais, departamento, provincia, distrito := fields["tenant_id"], fields["pais"], fields["departamento"], fields["provincia"], fields["distrito"];
    var nombre, direccion, contacto := fields["nombre"], fields["direccion"], fields["contacto"];
    var horarioApertura, horarioCierre := fields["horario_apertura"], fields["horario_cierre"];
    if tenantId == "" && pais == "" && departamento == "" && provincia == "" && distrito == ""
       && nombre == "" && direccion == "" && contacto == "" && horarioApertura == "" && horarioCierre == ""
    {
      return IncompleteResponse;
    }
    var ordenamiento := SortKey.Join([pais, departamento, provincia, distrito]);
    if event.headers.None? {
      return InternalErrorResponse;
    }
    var token := Authorization(event.headers.value);
    if !Truthy(token) {
      return UnauthorizedResponse;
    }
    var status := validate(Invocation(ValidarTokenAcceso, TokenOnly(token.value)));
    if status == Denied {
      return ForbiddenResponse;
    }
    var item := map[PartitionKey := tenantId,
                    SortKeyName := ordenamiento,
                    "nombre" := nombre,
                    "direccion" := direccion,
                    "contacto" := contacto,
                    "horario_apertura" := horarioApertura,
                    "horario_cierre" := horarioCierre];
    var written := table.PutItem(item);
    if written.Failure? {
      return InternalErrorResponse;
    }
    return CreatedResponse;
  }
}
