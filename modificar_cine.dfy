/**
 * LambdaModificarCine: partial update of one cinema record. Guards run in a
 * fixed order (401, 403, 400, 404, 400); on success the supplied optional
 * attributes of the addressed record are set and the whole new record is
 * returned with 200.
 */
module ModificarCine {
  import opened Wrappers
  import opened Dynamo
  import opened Lambda
  import SortKey

  const TableNameVariable := "TABLE_NAME_CINES"

  /** The sort-key attribute this handler addresses records by. */
  const SortKeyName := "ordenamiento"

  /** The optional attributes, in the order their SET clauses are added. */
  const Updatable := ["nombre", "direccion", "contacto", "horario_apertura", "horario_cierre", "imagen"]

  const MissingFieldsResponse := Response(400, "Bad Request - Faltan campos requeridos", NoBody)
  const NotFoundResponse := Response(404, "Not Found - El cine especificado no existe", NoBody)
  const NothingToUpdateResponse := Response(400, "Bad Request - No se proporcionaron campos para actualizar", NoBody)

  function UpdatedResponse(item: Item): Response
  {
    Response(200, "Cine actualizado exitosamente", UpdatedItem(item))
  }

  /** The request carries a token and the validator does not deny it. */
  predicate Admitted(event: Event, validate: Validator)
  {
    && event.headers.Some?
    && Truthy(Authorization(event.headers.value))
    && validate(Invocation(ValidarTokenAcceso, TokenOnly(Authorization(event.headers.value).value))) != Denied
  }

  /** The four fields that address a record are all truthy. */
  predicate HasRequired(body: Fields)
  {
    && Truthy(Field(body, "tenant_id"))
    && Truthy(Field(body, "departamento"))
    && Truthy(Field(body, "provincia"))
    && Truthy(Field(body, "distrito"))
  }

  /** `f"{departamento}#{provincia}#{distrito}"`. */
  function Ordenamiento(body: Fields): string
    requires HasRequired(body)
  {
    SortKey.Join([body["departamento"], body["provincia"], body["distrito"]])
  }

  /** The `Key={...}` argument of get_item and update_item. */
  function KeyArgumentOf(body: Fields): map<string, string>
    requires HasRequired(body)
  {
    map[PartitionKey := body["tenant_id"], SortKeyName := Ordenamiento(body)]
  }

  /** The record the request addresses. */
  function RecordKey(body: Fields): Key
    requires HasRequired(body)
  {
    (body["tenant_id"], Ordenamiento(body))
  }

  predicate Distinct(xs: seq<string>)
  {
    forall i, j :: 0 <= i < j < |xs| ==> xs[i] != xs[j]
  }

  /** The names among `names` whose body value is truthy, in the order of `names`. */
  function Supplied(body: Fields, names: seq<string>): (r: seq<string>)
    ensures forall n :: n in r <==> n in names && Truthy(Field(body, n))
    ensures Distinct(names) ==> Distinct(r)
  {
    if names == [] then []
    else (if Truthy(Field(body, names[0])) then [names[0]] else []) + Supplied(body, names[1..])
  }

  lemma {:induction false} NoneSupplied(body: Fields, names: seq<string>)
    requires forall n :: n in names ==> !Truthy(Field(body, n))
    ensures Supplied(body, names) == []
  {
    if names != [] {
      assert names[0] in names;
      NoneSupplied(body, names[1..]);
    }
  }

  lemma {:induction false} SuppliedSnoc(body: Fields, names: seq<string>, n: string)
    ensures Supplied(body, names + [n]) == Supplied(body, names) + (if Truthy(Field(body, n)) then [n] else [])
  {
    if names == [] {
      assert names + [n] == [n] && [n][1..] == [];
    } else {
      assert (names + [n])[0] == names[0];
      assert (names + [n])[1..] == names[1..] + [n];
      SuppliedSnoc(body, names[1..], n);
    }
  }

  /** The value placeholder of an attribute: `:nombre` for `nombre`. */
  function Placeholder(attr: string): string
  {
    ":" + attr
  }

  /** The clause `attr = :attr`. */
  function Clause(attr: string): SetAction
  {
    SetAction(attr, Placeholder(attr))
  }

  /** The `attribute = :attribute` clauses for the attributes, in order. */
  function Clauses(attrs: seq<string>): seq<SetAction>
  {
    seq(|attrs|, i requires 0 <= i < |attrs| => Clause(attrs[i]))
  }

  lemma PlaceholderInjective(a: string, b: string)
    requires ":" + a == ":" + b
    ensures a == b
  {
    assert (":" + a)[1..] == a && (":" + b)[1..] == b;
  }

  /** `expression_attribute_values`: each `:attribute` bound to the body's value, filled in order. */
  function BoundValues(body: Fields, attrs: seq<string>): map<string, string>
    requires forall a :: a in attrs ==> a in body
  {
    if attrs == [] then map[]
    else BoundValues(body, attrs[..|attrs| - 1])[Placeholder(attrs[|attrs| - 1]) := body[attrs[|attrs| - 1]]]
  }

  /** Exactly the placeholders of the attributes are bound, each to that attribute's value. */
  lemma {:induction false} BoundValuesSpec(body: Fields, attrs: seq<string>)
    requires forall a :: a in attrs ==> a in body
    ensures BoundValues(body, attrs).Keys == set a | a in attrs :: Placeholder(a)
    ensures forall a :: a in attrs ==> BoundValues(body, attrs)[Placeholder(a)] == body[a]
  {
    if attrs != [] {
      var init := attrs[..|attrs| - 1];
      var last := attrs[|attrs| - 1];
      assert attrs == init + [last];
      BoundValuesSpec(body, init);
      forall a | a in attrs && Placeholder(a) == Placeholder(last) ensures a == last {
        PlaceholderInjective(a, last);
      }
    }
  }

  lemma BoundValuesSnoc(body: Fields, attrs: seq<string>, n: string)
    requires forall a :: a in attrs + [n] ==> a in body
    ensures BoundValues(body, attrs + [n]) == BoundValues(body, attrs)[Placeholder(n) := body[n]]
  {
    assert (attrs + [n])[..|attrs|] == attrs;
  }

  lemma ClausesSnoc(attrs: seq<string>, n: string)
    ensures Clauses(attrs + [n]) == Clauses(attrs) + [Clause(n)]
  {
  }

  lemma UpdatableFacts()
    ensures Distinct(Updatable)
    ensures PartitionKey !in Updatable && SortKeyName !in Updatable
  {
  }

  /** The clauses and values the handler builds form an update expression DynamoDB accepts. */
  lemma ExpressionWellFormed(body: Fields)
    requires Supplied(body, Updatable) != []
    ensures var attrs := Supplied(body, Updatable);
      WellFormedSet(SortKeyName, Clauses(attrs), BoundValues(body, attrs))
  {
    var attrs := Supplied(body, Updatable);
    var clauses := Clauses(attrs);
    var values := BoundValues(body, attrs);
    UpdatableFacts();
    BoundValuesSpec(body, attrs);
    forall i, j | 0 <= i < j < |clauses| ensures clauses[i].attribute != clauses[j].attribute {
      assert clauses[i].attribute == attrs[i] && clauses[j].attribute == attrs[j];
    }
    forall p | p in values ensures exists i :: 0 <= i < |clauses| && clauses[i].placeholder == p {
      var a :| a in attrs && p == ":" + a;
      var i :| 0 <= i < |attrs| && attrs[i] == a;
      assert clauses[i].placeholder == p;
    }
  }

  /** The clauses and values built so far are those of the attributes in `done`. */
  ghost predicate Built(body: Fields, done: seq<string>, updateExpression: seq<SetAction>, values: map<string, string>)
  {
    var attrs := Supplied(body, done);
    updateExpression == Clauses(attrs) && values == BoundValues(body, attrs)
  }

  /** One `if` block of the builder: it handles the next attribute `n` and keeps `Built`. */
  lemma BlockKeepsBuilt(body: Fields, done: seq<string>, n: string, updateExpression: seq<SetAction>, values: map<string, string>)
    requires Built(body, done, updateExpression, values)
    ensures Truthy(Field(body, n)) ==> Built(body, done + [n], updateExpression + [Clause(n)], values[Placeholder(n) := body[n]])
    ensures !Truthy(Field(body, n)) ==> Built(body, done + [n], updateExpression, values)
  {
    SuppliedSnoc(body, done, n);
    var before := Supplied(body, done);
    if Truthy(Field(body, n)) {
      ClausesSnoc(before, n);
      BoundValuesSnoc(body, before, n);
      assert Supplied(body, done + [n]) == before + [n];
    } else {
      assert Supplied(body, done + [n]) == before;
    }
  }

  /**
   * Lines 75-94: one SET clause and one value binding for each truthy
   * optional attribute, in the fixed order of `Updatable`.
   */
  method BuildUpdateExpression(body: Fields) returns (updateExpression: seq<SetAction>, values: map<string, string>)
    ensures var attrs := Supplied(body, Updatable);
      updateExpression == Clauses(attrs) && values == BoundValues(body, attrs)
  {
    updateExpression, values := [], map[];
    ghost var done: seq<string> := [];
    assert Built(body, done, updateExpression, values);
    var nombre := Field(body, "nombre");
    var direccion := Field(body, "direccion");
    var contacto := Field(body, "contacto");
    var horarioApertura := Field(body, "horario_apertura");
    var horarioCierre := Field(body, "horario_cierre");
    var imagen := Field(body, "imagen");
    BlockKeepsBuilt(body, done, "nombre", updateExpression, values);
    if Truthy(nombre) {
      updateExpression := updateExpression + [Clause("nombre")];
      values := values[Placeholder("nombre") := nombre.value];
    }
    done := done + ["nombre"];
    BlockKeepsBuilt(body, done, "direccion", updateExpression, values);
    if Truthy(direccion) {
      updateExpression := updateExpression + [Clause("direccion")];
      values := values[Placeholder("direccion") := direccion.value];
    }
    done := done + ["direccion"];
    BlockKeepsBuilt(body, done, "contacto", updateExpression, values);
    if Truthy(contacto) {
      updateExpression := updateExpression + [Clause("contacto")];
      values := values[Placeholder("contacto") := contacto.value];
    }
    done := done + ["contacto"];
    BlockKeepsBuilt(body, done, "horario_apertura", updateExpression, values);
    if Truthy(horarioApertura) {
      updateExpression := updateExpression + [Clause("horario_apertura")];
      values := values[Placeholder("horario_apertura") := horarioApertura.value];
    }
    done := done + ["horario_apertura"];
    BlockKeepsBuilt(body, done, "horario_cierre", updateExpression, values);
    if Truthy(horarioCierre) {
      updateExpression := updateExpression + [Clause("horario_cierre")];
      values := values[Placeholder("horario_cierre") := horarioCierre.value];
    }
    done := done + ["horario_cierre"];
    BlockKeepsBuilt(body, done, "imagen", updateExpression, values);
    if Truthy(imagen) {
      updateExpression := updateExpression + [Clause("imagen")];
      values := values[Placeholder("imagen") := imagen.value];
    }
    done := done + ["imagen"];
    assert done == Updatable;
  }

  /** The supplied attributes of `body` were set on `before`, giving `after`; nothing else changed. */
  ghost predicate SetsExactly(before: Item, after: Item, body: Fields)
  {
    && after.Keys == before.Keys + (set a | a in Updatable && Truthy(Field(body, a)))
    && (forall a :: a in Updatable && Truthy(Field(body, a)) ==> a in after && after[a] == body[a])
    && (forall a :: a in before && !(a in Updatable && Truthy(Field(body, a))) ==> a in after && after[a] == before[a])
  }

  /**
   * The handler as a function of the table's key schema and items: the
   * response and the items afterwards. An exception anywhere is a 500.
   */
  function Handle(sortKey: string, store: Store, event: Event, env: Env, validate: Validator): (r: Outcome)
    ensures r.response.statusCode in {200, 400, 401, 403, 404, 500}
    ensures r.response.statusCode != 200 ==> r.store == store
    ensures r.response.statusCode == 401 <==> event.headers.Some? && !Truthy(Authorization(event.headers.value))
    ensures r.response.statusCode == 403 <==>
      && event.headers.Some? && Truthy(Authorization(event.headers.value))
      && validate(Invocation(ValidarTokenAcceso, TokenOnly(Authorization(event.headers.value).value))) == Denied
    ensures r.response.statusCode in {200, 404} ==>
      && Admitted(event, validate) && TableNameVariable in env && HasRequired(event.body)
      && sortKey == SortKeyName
    ensures r.response.statusCode == 200 ==> RecordKey(event.body) in store && Supplied(event.body, Updatable) != []
    ensures r.response.statusCode == 404 ==> RecordKey(event.body) !in store
  {
    if event.headers.None? then Outcome(InternalErrorResponse, store)
    else
      var token := Authorization(event.headers.value);
      if !Truthy(token) then Outcome(UnauthorizedResponse, store)
      else if validate(Invocation(ValidarTokenAcceso, TokenOnly(token.value))) == Denied then Outcome(ForbiddenResponse, store)
      else if TableNameVariable !in env then Outcome(InternalErrorResponse, store)
      else if !HasRequired(event.body) then Outcome(MissingFieldsResponse, store)
      else
        var key := KeyArgumentOf(event.body);
        KeyArgumentAccepted(sortKey, event.body);
        match Fetch(sortKey, store, key)
        case Failure(_) => Outcome(InternalErrorResponse, store)
        case Success(None) => Outcome(NotFoundResponse, store)
        case Success(Some(_)) =>
          var attrs := Supplied(event.body, Updatable);
          var updateExpression := Clauses(attrs);
          if updateExpression == [] then Outcome(NothingToUpdateResponse, store)
          else
            match Update(sortKey, store, key, updateExpression, BoundValues(event.body, attrs))
            case Failure(_) => Outcome(InternalErrorResponse, store)
            case Success(updated) => Outcome(UpdatedResponse(updated.1), updated.0)
  }

  /** The key argument names the schema's attributes exactly when the table's sort key is `ordenamiento`. */
  lemma KeyArgumentAccepted(sortKey: string, body: Fields)
    requires HasRequired(body)
    ensures KeyArgument(sortKey, KeyArgumentOf(body)) == if sortKey == SortKeyName then Some(RecordKey(body)) else None
  {
    var key := KeyArgumentOf(body);
    SortKey.JoinSeparators([body["departamento"], body["provincia"], body["distrito"]]);
    if sortKey != SortKeyName {
      assert SortKeyName in key.Keys && SortKeyName !in {PartitionKey, sortKey};
    }
  }

  /** Without a usable token the answer is 401, whatever the store, the schema, the environment and the validator. */
  lemma UnauthorizedBeforeAnything(sortKey: string, store: Store, event: Event, env: Env, validate: Validator,
                                   sortKey': string, store': Store, env': Env, validate': Validator)
    requires event.headers.Some? && !Truthy(Authorization(event.headers.value))
    ensures Handle(sortKey, store, event, env, validate) == Outcome(UnauthorizedResponse, store)
    ensures Handle(sortKey', store', event, env', validate').response == UnauthorizedResponse
  {
  }

  /** A denial by the validator is a 403 that does not depend on the store, the schema or the environment. */
  lemma ForbiddenBeforeStore(sortKey: string, store: Store, event: Event, env: Env, validate: Validator,
                             sortKey': string, store': Store, env': Env)
    requires event.headers.Some? && Truthy(Authorization(event.headers.value))
    requires validate(Invocation(ValidarTokenAcceso, TokenOnly(Authorization(event.headers.value).value))) == Denied
    ensures Handle(sortKey, store, event, env, validate) == Outcome(ForbiddenResponse, store)
    ensures Handle(sortKey', store', event, env', validate).response == ForbiddenResponse
  {
  }

  /** Any falsy addressing field gives 400, with the store untouched. */
  lemma MissingFieldsIsBadRequest(sortKey: string, store: Store, event: Event, env: Env, validate: Validator)
    requires Admitted(event, validate) && TableNameVariable in env && !HasRequired(event.body)
    ensures Handle(sortKey, store, event, env, validate) == Outcome(MissingFieldsResponse, store)
  {
  }

  /** A missing record is a 404 even when no attribute to update is supplied: the existence check comes first. */
  lemma MissingRecordIsNotFound(store: Store, event: Event, env: Env, validate: Validator)
    requires Admitted(event, validate) && TableNameVariable in env && HasRequired(event.body)
    requires RecordKey(event.body) !in store
    ensures Handle(SortKeyName, store, event, env, validate) == Outcome(NotFoundResponse, store)
  {
    KeyArgumentAccepted(SortKeyName, event.body);
  }

  /** An existing record with nothing to set is a 400, with the store untouched. */
  lemma NothingSuppliedIsBadRequest(store: Store, event: Event, env: Env, validate: Validator)
    requires Admitted(event, validate) && TableNameVariable in env && HasRequired(event.body)
    requires RecordKey(event.body) in store
    requires forall a :: a in Updatable ==> !Truthy(Field(event.body, a))
    ensures Handle(SortKeyName, store, event, env, validate) == Outcome(NothingToUpdateResponse, store)
  {
    KeyArgumentAccepted(SortKeyName, event.body);
    NoneSupplied(event.body, Updatable);
  }

  /** On a table keyed by another sort-key attribute, every admitted, complete request fails with 500. */
  lemma OtherSchemaIsInternalError(sortKey: string, store: Store, event: Event, env: Env, validate: Validator)
    requires Admitted(event, validate) && TableNameVariable in env && HasRequired(event.body)
    requires sortKey != SortKeyName
    ensures Handle(sortKey, store, event, env, validate) == Outcome(InternalErrorResponse, store)
  {
    KeyArgumentAccepted(sortKey, event.body);
  }

  /**
   * Success: the addressed record exists and some attribute is supplied.
   * Then exactly the supplied attributes of that one record get the
   * supplied values, every other record is unchanged, and the response
   * is 200 with the whole updated record.
   */
  lemma UpdatesOnlySuppliedAttributes(store: Store, event: Event, env: Env, validate: Validator)
    requires Admitted(event, validate) && TableNameVariable in env && HasRequired(event.body)
    requires RecordKey(event.body) in store
    requires exists a :: a in Updatable && Truthy(Field(event.body, a))
    ensures var r := Handle(SortKeyName, store, event, env, validate);
      var k := RecordKey(event.body);
      && r.response.statusCode == 200
      && k in r.store
      && r.store == store[k := r.store[k]]
      && r.response.body == UpdatedItem(r.store[k])
      && SetsExactly(store[k], r.store[k], event.body)
  {
    var body := event.body;
    var k := RecordKey(body);
    KeyArgumentAccepted(SortKeyName, body);
    var attrs := Supplied(body, Updatable);
    var a :| a in Updatable && Truthy(Field(body, a));
    assert a in attrs;
    var clauses := Clauses(attrs);
    var values := BoundValues(body, attrs);
    ExpressionWellFormed(body);
    var after := ApplySet(store[k], clauses, values);
    assert Update(SortKeyName, store, KeyArgumentOf(body), clauses, values) == Success((store[k := after], after));
    SetSuppliedEffect(store[k], body);
  }

  /** Applying the builder's clauses to a record sets exactly the supplied attributes. */
  lemma SetSuppliedEffect(before: Item, body: Fields)
    requires Supplied(body, Updatable) != []
    ensures var attrs := Supplied(body, Updatable);
      && WellFormedSet(SortKeyName, Clauses(attrs), BoundValues(body, attrs))
      && SetsExactly(before, ApplySet(before, Clauses(attrs), BoundValues(body, attrs)), body)
  {
    var attrs := Supplied(body, Updatable);
    var clauses := Clauses(attrs);
    var values := BoundValues(body, attrs);
    ExpressionWellFormed(body);
    BoundValuesSpec(body, attrs);
    ApplySetEffect(before, clauses, values);
    var after := ApplySet(before, clauses, values);
    AssignedSupplied(body);
    forall x | x in Updatable && Truthy(Field(body, x)) ensures x in after && after[x] == body[x] {
      var i :| 0 <= i < |attrs| && attrs[i] == x;
      assert clauses[i] == Clause(x);
    }
  }

  /** The builder assigns exactly the truthy optional attributes. */
  lemma AssignedSupplied(body: Fields)
    ensures Assigned(Clauses(Supplied(body, Updatable))) == set a | a in Updatable && Truthy(Field(body, a))
  {
    var attrs := Supplied(body, Updatable);
    var clauses := Clauses(attrs);
    forall x | x in Assigned(clauses) ensures x in Updatable && Truthy(Field(body, x)) {
      var i :| 0 <= i < |clauses| && clauses[i].attribute == x;
      assert attrs[i] == x;
    }
    forall x | x in Updatable && Truthy(Field(body, x)) ensures x in Assigned(clauses) {
      var i :| 0 <= i < |attrs| && attrs[i] == x;
      assert clauses[i].attribute == x;
    }
  }

  /**
   * The imperative handler: the guards in source order with early
   * returns, then get_item, the builder and update_item on the table.
   */
  method LambdaHandler(table: Table, event: Event, env: Env, validate: Validator) returns (response: Response)
    requires table.Valid()
    modifies table
    ensures table.Valid()
    ensures var r := Handle(table.sortKey, old(table.items), event, env, validate);
      response == r.response && table.items == r.store
  {
    if event.headers.None? {
      return InternalErrorResponse;
    }
    var token := Authorization(event.headers.value);
    if !Truthy(token) {
      return UnauthorizedResponse;
    }
    var status := validate(Invocation(ValidarTokenAcceso, TokenOnly(token.value)));
    if status == Denied {
      return ForbiddenResponse;
    }
    var body := event.body;
    var tenantId := Field(body, "tenant_id");
    var departamento := Field(body, "departamento");
    var provincia := Field(body, "provincia");
    var distrito := Field(body, "distrito");
    if TableNameVariable !in env {
      return InternalErrorResponse;
    }
    if !Truthy(tenantId) || !Truthy(departamento) || !Truthy(provincia) || !Truthy(distrito) {
      return MissingFieldsResponse;
    }
    var ordenamiento := SortKey.Join([departamento.value, provincia.value, distrito.value]);
    var key := map[PartitionKey := tenantId.value, SortKeyName := ordenamiento];
    var existing := table.GetItem(key);
    if existing.Failure? {
      return InternalErrorResponse;
    }
    if existing.value.None? {
      return NotFoundResponse;
    }
    var updateExpression, values := BuildUpdateExpression(body);
    if updateExpression == [] {
      return NothingToUpdateResponse;
    }
    var updated := table.UpdateItem(key, updateExpression, values);
    if updated.Failure? {
      return InternalErrorResponse;
    }
    return UpdatedResponse(updated.value);
  }
}
