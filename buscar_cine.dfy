/**
 * LambdaBuscarCine: list the cinema records of one tenant whose `cine_id`
 * starts with `departamento#provincia#distrito`, where an absent query
 * parameter is rendered as the text `None`. Read-only.
 */
module BuscarCine {
  import opened Wrappers
  import opened Dynamo
  import opened Lambda
  import SortKey

  const TableNameVariable := "TABLE_NAME_CINES"
  const ValidatorVariable := "LAMBDA_VALIDAR_TOKEN"

  /** The sort-key attribute this handler queries. */
  const SortKeyName := "cine_id"

  function FoundResponse(items: set<Item>): Response
  {
    Response(200, "Búsqueda exitosa", Items(items))
  }

  /** The three rendered location segments of the query parameters. */
  function Segments(params: Fields): seq<string>
  {
    [Str(Field(params, "departamento")), Str(Field(params, "provincia")), Str(Field(params, "distrito"))]
  }

  /** `ordenamiento_filter = f"{departamento}#{provincia}#{distrito}"`. */
  function Prefix(params: Fields): string
  {
    SortKey.Join(Segments(params))
  }

  /** Lines 59-64: the partition condition, plus `begins_with` when the prefix is truthy. */
  function Condition(params: Fields): KeyCondition
  {
    var prefix := Prefix(params);
    var partitionOnly := KeyCondition(PartitionKey, Field(params, "tenant_id"), None);
    if prefix != "" then partitionOnly.(beginsWith := Some((SortKeyName, prefix))) else partitionOnly
  }

  /** The prefix has two separators, so it is never empty and `begins_with` is always part of the query. */
  lemma PrefixNeverEmpty(params: Fields)
    ensures SortKey.Separators(Prefix(params)) >= 2 && Prefix(params) != ""
    ensures Condition(params).beginsWith == Some((SortKeyName, Prefix(params)))
  {
    SortKey.JoinSeparators(Segments(params));
  }

  /** The handler as a function of the table's key schema and items; it has no effect on them. */
  function Handle(sortKey: string, store: Store, event: Event, env: Env, validate: Validator): (r: Response)
    ensures r.statusCode in {200, 401, 403, 500}
    ensures r.statusCode == 401 <==> event.headers.Some? && !Truthy(Authorization(event.headers.value))
    ensures r.statusCode == 403 <==>
      && event.headers.Some? && Truthy(Authorization(event.headers.value))
      && TableNameVariable in env && ValidatorVariable in env
      && validate(Invocation(env[ValidatorVariable],
                             TenantAndToken(Field(event.queryStringParameters, "tenant_id"), Authorization(event.headers.value).value))) == Denied
    ensures r.statusCode == 200 ==>
      && sortKey == SortKeyName
      && Truthy(Field(event.queryStringParameters, "tenant_id"))
      && r.body == Items(Matching(store, event.queryStringParameters["tenant_id"], Some(Prefix(event.queryStringParameters))))
  {
    if event.headers.None? then InternalErrorResponse
    else
      var token := Authorization(event.headers.value);
      if !Truthy(token) then UnauthorizedResponse
      else
        var params := event.queryStringParameters;
        if TableNameVariable !in env || ValidatorVariable !in env then InternalErrorResponse
        else if validate(Invocation(env[ValidatorVariable], TenantAndToken(Field(params, "tenant_id"), token.value))) == Denied then
          ForbiddenResponse
        else
          PrefixNeverEmpty(params);
          match Query(sortKey, store, Condition(params))
          case Failure(_) => InternalErrorResponse
          case Success(items) => FoundResponse(items)
  }

  /** The request carries a token, the environment names the table and validator, and the validator does not deny. */
  predicate Admitted(event: Event, env: Env, validate: Validator)
  {
    && event.headers.Some?
    && Truthy(Authorization(event.headers.value))
    && TableNameVariable in env && ValidatorVariable in env
    && validate(Invocation(env[ValidatorVariable],
                           TenantAndToken(Field(event.queryStringParameters, "tenant_id"), Authorization(event.headers.value).value))) != Denied
  }

  /** Without a usable token the answer is 401, whatever the parameters, environment, validator and store. */
  lemma UnauthorizedBeforeAnything(sortKey: string, store: Store, event: Event, env: Env, validate: Validator,
                                   sortKey': string, store': Store, params': Fields, env': Env, validate': Validator)
    requires event.headers.Some? && !Truthy(Authorization(event.headers.value))
    ensures Handle(sortKey, store, event, env, validate) == UnauthorizedResponse
    ensures Handle(sortKey', store', event.(queryStringParameters := params'), env', validate') == UnauthorizedResponse
  {
  }

  /**
   * The answer is exactly the records of the tenant's partition whose
   * sort key starts with the prefix; no match is a 200 with no items.
   */
  lemma FindsExactlyMatching(store: Store, event: Event, env: Env, validate: Validator)
    requires Admitted(event, env, validate)
    requires Truthy(Field(event.queryStringParameters, "tenant_id"))
    ensures var params := event.queryStringParameters;
      Handle(SortKeyName, store, event, env, validate) == FoundResponse(Matching(store, params["tenant_id"], Some(Prefix(params))))
    ensures var params := event.queryStringParameters;
      (forall k :: k in store ==> k.0 != params["tenant_id"] || !(Prefix(params) <= k.1)) ==>
        Handle(SortKeyName, store, event, env, validate) == FoundResponse({})
  {
    var params := event.queryStringParameters;
    PrefixNeverEmpty(params);
    var found := Matching(store, params["tenant_id"], Some(Prefix(params)));
    if forall k :: k in store ==> k.0 != params["tenant_id"] || !(Prefix(params) <= k.1) {
      assert found == {};
    }
  }

  /** Every returned item carries the tenant and a `cine_id` starting with the prefix. */
  lemma ResultsCarryTenantAndPrefix(store: Store, event: Event, env: Env, validate: Validator)
    requires Keyed(SortKeyName, store)
    ensures var r := Handle(SortKeyName, store, event, env, validate);
      var params := event.queryStringParameters;
      r.statusCode == 200 ==>
        forall it :: it in r.body.items ==>
          PartitionKey in it && SortKeyName in it
          && it[PartitionKey] == params["tenant_id"] && Prefix(params) <= it[SortKeyName]
  {
    var r := Handle(SortKeyName, store, event, env, validate);
    if r.statusCode == 200 {
      var params := event.queryStringParameters;
      QueryResultKeys(SortKeyName, store, params["tenant_id"], Prefix(params));
    }
  }

  /** A missing or empty `tenant_id` reaches the query and DynamoDB refuses it: 500, never an empty list. */
  lemma MissingTenantIsInternalError(sortKey: string, store: Store, event: Event, env: Env, validate: Validator)
    requires Admitted(event, env, validate)
    requires !Truthy(Field(event.queryStringParameters, "tenant_id"))
    ensures Handle(sortKey, store, event, env, validate) == InternalErrorResponse
  {
  }

  /** On a table keyed by another sort-key attribute, every admitted search fails with 500. */
  lemma OtherSchemaIsInternalError(sortKey: string, store: Store, event: Event, env: Env, validate: Validator)
    requires Admitted(event, env, validate) && sortKey != SortKeyName
    ensures Handle(sortKey, store, event, env, validate) == InternalErrorResponse
  {
    PrefixNeverEmpty(event.queryStringParameters);
  }

  lemma {:induction false} PrefixCancel(u: string, v: string, w: string)
    ensures (u + v <= u + w) <==> (v <= w)
  {
    if v <= w {
      assert (u + w)[..|u + v|] == u + w[..|v|];
    }
    if u + v <= u + w {
      assert w[..|v|] == (u + w)[..|u + v|][|u|..];
    }
  }

  lemma JoinThree(a: string, b: string, c: string)
    ensures SortKey.Join([a, b, c]) == a + "#" + b + "#" + c
  {
    assert [a, b, c][1..] == [b, c] && [b, c][1..] == [c];
    assert SortKey.Join([b, c]) == b + "#" + c;
  }

  /**
   * Omitting `distrito` does not widen the search: the prefix ends in
   * `#None`, so of the records keyed `departamento#provincia#x` only those
   * whose district `x` starts with "None" match.
   */
  lemma OmittedDistrictMatchesOnlyNone(params: Fields, x: string)
    requires "departamento" in params && "provincia" in params && "distrito" !in params
    ensures Prefix(params) <= SortKey.Join([params["departamento"], params["provincia"], x]) <==> "None" <= x
  {
    var u := params["departamento"] + "#" + params["provincia"] + "#";
    var d, p := params["departamento"], params["provincia"];
    JoinThree(d, p, x);
    JoinThree(d, p, "None");
    assert Segments(params) == [d, p, "None"];
    PrefixCancel(u, "None", x);
  }

  /**
   * The imperative handler: guards in source order, the condition built by
   * extending the partition condition, then query. It modifies nothing.
   */
  method LambdaHandler(table: Table, event: Event, env: Env, validate: Validator) returns (response: Response)
    ensures response == Handle(table.sortKey, table.items, event, env, validate)
  {
    if event.headers.None? {
      return InternalErrorResponse;
    }
    var token := Authorization(event.headers.value);
    if !Truthy(token) {
      return UnauthorizedResponse;
    }
    var params := event.queryStringParameters;
    var tenantId := Field(params, "tenant_id");
    var departamento := Field(params, "departamento");
    var provincia := Field(params, "provincia");
    var distrito := Field(params, "distrito");
    if TableNameVariable !in env || ValidatorVariable !in env {
      return InternalErrorResponse;
    }
    var status := validate(Invocation(env[ValidatorVariable], TenantAndToken(tenantId, token.value)));
    if status == Denied {
      return ForbiddenResponse;
    }
    var ordenamientoFilter := SortKey.Join([Str(departamento), Str(provincia), Str(distrito)]);
    var keyCondition := KeyCondition(PartitionKey, tenantId, None);
    if ordenamientoFilter != "" {
      keyCondition := keyCondition.(beginsWith := Some((SortKeyName, ordenamientoFilter)));
    }
    var found := table.QueryItems(keyCondition);
    if found.Failure? {
      return InternalErrorResponse;
    }
    return FoundResponse(found.value);
  }
}
