/**
 * How the three handlers fit together over one table: the key each one
 * builds and the sort-key attribute each one expects.
 */
module Interplay {
  import opened Dynamo
  import opened Lambda
  import SortKey
  import CrearCine
  import ModificarCine
  import BuscarCine

  /**
   * Create stores a record under a four-segment `ordenamiento`, Update
   * addresses a three-segment one: when no segment holds a `#`, a created
   * record can never be the one an update request addresses.
   */
  lemma CreatedRecordNotAddressedByUpdate(fields: Fields, body: Fields)
    requires CrearCine.AllPresent(fields) && ModificarCine.HasRequired(body)
    requires SortKey.Plain([fields["pais"], fields["departamento"], fields["provincia"], fields["distrito"]])
    requires SortKey.Plain([body["departamento"], body["provincia"], body["distrito"]])
    ensures CrearCine.RecordKey(fields) != ModificarCine.RecordKey(body)
  {
    var created := [fields["pais"], fields["departamento"], fields["provincia"], fields["distrito"]];
    var addressed := [body["departamento"], body["provincia"], body["distrito"]];
    SortKey.SplitJoin(created);
    SortKey.SplitJoin(addressed);
    assert |SortKey.Split(SortKey.Join(created))| != |SortKey.Split(SortKey.Join(addressed))|;
  }

  /**
   * Create writes `ordenamiento` and Search queries `cine_id`: on a table of
   * either key schema at most one of the two can succeed.
   */
  lemma NoSchemaServesCreateAndSearch(sortKey: string, store: Store, create: Event, search: Event,
                                      env: Env, validate: Validator)
    ensures !(CrearCine.Handle(sortKey, store, create, validate).response.statusCode == 201
              && BuscarCine.Handle(sortKey, store, search, env, validate).statusCode == 200)
  {
    if CrearCine.Handle(sortKey, store, create, validate).response.statusCode == 201 {
      assert sortKey in CrearCine.NewItem(create.fields);
      assert sortKey != BuscarCine.SortKeyName;
    }
  }

  /** Likewise Update reads and writes `ordenamiento`, so it and Search never both succeed on one table. */
  lemma NoSchemaServesUpdateAndSearch(sortKey: string, store: Store, update: Event, search: Event,
                                      env: Env, validate: Validator)
    ensures !(ModificarCine.Handle(sortKey, store, update, env, validate).response.statusCode == 200
              && BuscarCine.Handle(sortKey, store, search, env, validate).statusCode == 200)
  {
  }
}
