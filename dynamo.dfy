/**
 * The DynamoDB table the handlers talk to, reduced to what they use: items
 * addressed by a partition key (`tenant_id`) and a sort key whose attribute
 * name is the table's key schema, and the four calls get_item, put_item,
 * update_item (with a `SET` expression) and query (with `begins_with`).
 * A call that DynamoDB refuses with a ValidationException is a `Failure`.
 */
module Dynamo {
  import opened Wrappers

  /** An item: attribute name to string value. */
  type Item = map<string, string>
  /** (partition-key value, sort-key value). */
  type Key = (string, string)
  type Store = map<Key, Item>

  /** The partition-key attribute of the cinema table. */
  const PartitionKey := "tenant_id"

  /** The key an item is stored under; DynamoDB refuses an item whose key attributes are missing or empty. */
  function ItemKey(sortKey: string, item: Item): Option<Key>
  {
    if PartitionKey in item && sortKey in item && item[PartitionKey] != "" && item[sortKey] != ""
    then Some((item[PartitionKey], item[sortKey]))
    else None
  }

  /** The `Key={...}` argument of get_item and update_item must name exactly the schema's key attributes. */
  function KeyArgument(sortKey: string, key: map<string, string>): Option<Key>
  {
    if key.Keys == {PartitionKey, sortKey} then ItemKey(sortKey, key) else None
  }

  /** The table invariant: every item is stored under its own key. */
  ghost predicate Keyed(sortKey: string, store: Store)
  {
    forall k :: k in store ==> ItemKey(sortKey, store[k]) == Some(k)
  }

  /** get_item: the item at the key, if any. */
  function Fetch(sortKey: string, store: Store, key: map<string, string>): Result<Option<Item>>
  {
    match KeyArgument(sortKey, key)
    case None => Failure("ValidationException: the provided key element does not match the schema")
    case Some(k) => Success(if k in store then Some(store[k]) else None)
  }

  /** put_item: store the whole item under its key, replacing whatever was there. */
  function Put(sortKey: string, store: Store, item: Item): (r: Result<Store>)
    ensures r.Success? <==> ItemKey(sortKey, item).Some?
    ensures Keyed(sortKey, store) && r.Success? ==> Keyed(sortKey, r.value)
  {
    match ItemKey(sortKey, item)
    case None => Failure("ValidationException: missing or empty key attribute")
    case Some(k) => Success(store[k := item])
  }

  /** One `attribute = :placeholder` clause of a `SET` update expression. */
  datatype SetAction = SetAction(attribute: string, placeholder: string)

  function Assigned(actions: seq<SetAction>): set<string>
  {
    set i | 0 <= i < |actions| :: actions[i].attribute
  }

  predicate Bound(actions: seq<SetAction>, values: map<string, string>)
  {
    forall i :: 0 <= i < |actions| ==> actions[i].placeholder in values
  }

  predicate DistinctAttributes(actions: seq<SetAction>)
  {
    forall i, j :: 0 <= i < j < |actions| ==> actions[i].attribute != actions[j].attribute
  }

  /**
   * What DynamoDB accepts as `UpdateExpression="SET ..."` with its
   * `ExpressionAttributeValues`: at least one clause, every placeholder
   * bound, no key attribute assigned, no attribute assigned twice, and no
   * value left unused.
   */
  predicate WellFormedSet(sortKey: string, actions: seq<SetAction>, values: map<string, string>)
  {
    && actions != []
    && Bound(actions, values)
    && (forall i :: 0 <= i < |actions| ==> actions[i].attribute != PartitionKey && actions[i].attribute != sortKey)
    && DistinctAttributes(actions)
    && (forall p :: p in values ==> exists i :: 0 <= i < |actions| && actions[i].placeholder == p)
  }

  /** The item after the clauses are applied one after the other. */
  function ApplySet(item: Item, actions: seq<SetAction>, values: map<string, string>): Item
    requires Bound(actions, values)
    decreases |actions|
  {
    if actions == [] then item
    else ApplySet(item[actions[0].attribute := values[actions[0].placeholder]], actions[1..], values)
  }

  /** With distinct attributes, SET gives each named attribute its value and leaves every other attribute alone. */
  lemma {:induction false} ApplySetEffect(item: Item, actions: seq<SetAction>, values: map<string, string>)
    requires Bound(actions, values) && DistinctAttributes(actions)
    ensures ApplySet(item, actions, values).Keys == item.Keys + Assigned(actions)
    ensures forall i :: 0 <= i < |actions| ==> ApplySet(item, actions, values)[actions[i].attribute] == values[actions[i].placeholder]
    ensures forall a :: a in item && a !in Assigned(actions) ==> ApplySet(item, actions, values)[a] == item[a]
    decreases |actions|
  {
    if actions != [] {
      var next := item[actions[0].attribute := values[actions[0].placeholder]];
      var rest := actions[1..];
      ApplySetEffect(next, rest, values);
      assert Assigned(actions) == {actions[0].attribute} + Assigned(rest) by {
        forall a | a in Assigned(actions) ensures a in {actions[0].attribute} + Assigned(rest) {
          var i :| 0 <= i < |actions| && actions[i].attribute == a;
          if i > 0 { assert rest[i - 1].attribute == a; }
        }
        forall a | a in Assigned(rest) ensures a in Assigned(actions) {
          var i :| 0 <= i < |rest| && rest[i].attribute == a;
          assert actions[i + 1].attribute == a;
        }
      }
      assert actions[0].attribute !in Assigned(rest) by {
        forall i | 0 <= i < |rest| ensures rest[i].attribute != actions[0].attribute {
          assert rest[i] == actions[i + 1];
        }
      }
      forall i | 0 <= i < |actions|
        ensures ApplySet(item, actions, values)[actions[i].attribute] == values[actions[i].placeholder]
      {
        if i > 0 { assert actions[i] == rest[i - 1]; }
      }
    }
  }

  /** update_item with `ReturnValues="ALL_NEW"`: the new store and the whole updated item. */
  function Update(sortKey: string, store: Store, key: map<string, string>, actions: seq<SetAction>, values: map<string, string>)
    : (r: Result<(Store, Item)>)
    ensures Keyed(sortKey, store) && r.Success? ==> Keyed(sortKey, r.value.0)
  {
    match KeyArgument(sortKey, key)
    case None => Failure("ValidationException: the provided key element does not match the schema")
    case Some(k) =>
      if !WellFormedSet(sortKey, actions, values) then Failure("ValidationException: invalid UpdateExpression")
      else
        // an absent item is created from its key attributes (upsert)
        var before := if k in store then store[k] else key;
        var after := ApplySet(before, actions, values);
        UpdateKeepsKeyed(sortKey, store, k, before, actions, values);
        Success((store[k := after], after))
  }

  lemma UpdateKeepsKeyed(sortKey: string, store: Store, k: Key, before: Item, actions: seq<SetAction>, values: map<string, string>)
    requires WellFormedSet(sortKey, actions, values)
    requires Keyed(sortKey, store) ==> ItemKey(sortKey, before) == Some(k)
    ensures Keyed(sortKey, store) ==> Keyed(sortKey, store[k := ApplySet(before, actions, values)])
  {
    ApplySetEffect(before, actions, values);
    assert PartitionKey !in Assigned(actions) && sortKey !in Assigned(actions);
  }

  /** `KeyConditionExpression`: partition-key equality and an optional `begins_with` on a sort-key attribute. */
  datatype KeyCondition = KeyCondition(partitionName: string, partitionValue: Option<string>, beginsWith: Option<(string, string)>)

  /** The items of one partition whose sort key starts with the prefix, if one is given. */
  function Matching(store: Store, partition: string, prefix: Option<string>): set<Item>
  {
    set k | k in store && k.0 == partition && (prefix.None? || prefix.value <= k.1) :: store[k]
  }

  /** query: the condition must name the schema's key attributes and give a non-empty partition value. */
  function Query(sortKey: string, store: Store, cond: KeyCondition): Result<set<Item>>
  {
    if cond.partitionName != PartitionKey || (cond.beginsWith.Some? && cond.beginsWith.value.0 != sortKey) then
      Failure("ValidationException: query condition missed key schema element")
    else if cond.partitionValue.None? || cond.partitionValue.value == "" then
      Failure("ValidationException: invalid partition key value")
    else
      Success(Matching(store, cond.partitionValue.value, if cond.beginsWith.Some? then Some(cond.beginsWith.value.1) else None))
  }

  /** Every item a query returns carries the queried partition value and a sort key with the prefix. */
  lemma QueryResultKeys(sortKey: string, store: Store, partition: string, prefix: string)
    requires Keyed(sortKey, store)
    ensures forall it :: it in Matching(store, partition, Some(prefix)) ==>
      PartitionKey in it && sortKey in it && it[PartitionKey] == partition && prefix <= it[sortKey]
  {
    forall it | it in Matching(store, partition, Some(prefix))
      ensures PartitionKey in it && sortKey in it && it[PartitionKey] == partition && prefix <= it[sortKey]
    {
      var k :| k in store && k.0 == partition && prefix <= k.1 && store[k] == it;
      assert ItemKey(sortKey, store[k]) == Some(k);
    }
  }

  /** A table: its key schema (the sort-key attribute name) and its items. */
  class Table {
    const sortKey: string
    var items: Store

    ghost predicate Valid()
      reads this
    {
      sortKey != PartitionKey && Keyed(sortKey, items)
    }

    constructor (sortKey: string)
      requires sortKey != PartitionKey
      ensures Valid() && this.sortKey == sortKey && items == map[]
    {
      this.sortKey := sortKey;
      items := map[];
    }

    method GetItem(key: map<string, string>) returns (r: Result<Option<Item>>)
      ensures r == Fetch(sortKey, items, key)
    {
      r := Fetch(sortKey, items, key);
    }

    method PutItem(item: Item) returns (r: Result<()>)
      requires Valid()
      modifies this
      ensures Valid()
      ensures r.Success? <==> ItemKey(sortKey, item).Some?
      ensures items == if r.Success? then old(items)[ItemKey(sortKey, item).value := item] else old(items)
    {
      var written := Put(sortKey, items, item);
      if written.Success? {
        items := written.value;
        r := Success(());
      } else {
        r := Failure(written.error);
      }
    }

    method UpdateItem(key: map<string, string>, actions: seq<SetAction>, values: map<string, string>)
      returns (r: Result<Item>)
      requires Valid()
      modifies this
      ensures Valid()
      ensures var u := Update(sortKey, old(items), key, actions, values);
        && r.Success? == u.Success?
        && (r.Success? ==> r.value == u.value.1 && items == u.value.0)
        && (r.Failure? ==> items == old(items))
    {
      var updated := Update(sortKey, items, key, actions, values);
      if updated.Success? {
        items := updated.value.0;
        r := Success(updated.value.1);
      } else {
        r := Failure(updated.error);
      }
    }

    method QueryItems(cond: KeyCondition) returns (r: Result<set<Item>>)
      ensures r == Query(sortKey, items, cond)
    {
      r := Query(sortKey, items, cond);
    }
  }
}
