/** The DynamoDB request descriptions the builders produce, and
    `marshall` of `@aws-sdk/util-dynamodb`, modelled on the abstract values
    (attribute-value encoding is not modelled). */
module Dynamo {
  import opened JsValue
  import opened JsObject

  /** Sort key of every episode row, and partition key of its index entry. */
  const EPISODE_SORT_KEY := "episode#"

  /** The field holding an episode's ordinal, and the two attributes of
      the secondary index that lists episodes by it. */
  const EPISODE_NUMBER := "episodeNumber"
  const INDEX_PARTITION_KEY := "GSI1PK"
  const INDEX_SORT_KEY := "GSI1SK"

  /** `ExpressionAttributeNames` that every conditional command carries. */
  const PK_NAMES: map<string, string> := map["#pk" := "pk"]

  datatype PutCommand = PutCommand(
    tableName: string,
    item: Entries,
    conditionExpression: string,
    names: map<string, string>)

  datatype UpdateCommand = UpdateCommand(
    tableName: string,
    key: Entries,
    conditionExpression: string,
    names: map<string, string>,
    values: map<string, Value>,
    updateExpression: string)

  /** Primary key `{pk: episodeId, sk: 'episode#'}` of an episode row. */
  function EpisodeKey(episodeId: string): (key: Entries)
    ensures Keys(key) == {"pk", "sk"} && DistinctKeys(key)
    ensures Lookup(key, "pk") == Str(episodeId) && Lookup(key, "sk") == Str(EPISODE_SORT_KEY)
    ensures key[0].0 == "pk" && key[1].0 == "sk"
  {
    var key := [("pk", Str(episodeId)), ("sk", Str(EPISODE_SORT_KEY))];
    assert Init(key) == [("pk", Str(episodeId))] && Init(Init(key)) == [];
    assert Keys(Init(key)) == {"pk"} && DistinctKeys(Init(key));
    key
  }

  /** No `undefined` anywhere inside the value. */
  predicate DeepDefined(v: Value) {
    match v
    case Undefined => false
    case Obj(fs) => forall i :: 0 <= i < |fs| ==> DeepDefined(fs[i].1)
    case _ => true
  }

  /** `marshall(v, { removeUndefinedValues: true })` on one value: every
      property whose value is `undefined` is dropped, at every depth. */
  function RemoveUndefined(v: Value): (r: Value)
    decreases v, 1
    ensures r.Obj? == v.Obj?
    ensures !v.Obj? ==> r == v
    ensures v != Undefined ==> DeepDefined(r)
  {
    match v
    case Obj(fs) => Obj(RemoveUndefinedFields(fs, v))
    case _ => v
  }

  /** The properties of an object under `removeUndefinedValues`; `parent` is
      the object they belong to and only measures termination. */
  function RemoveUndefinedFields(e: Entries, ghost parent: Value): (r: Entries)
    requires forall i :: 0 <= i < |e| ==> e[i].1 < parent
    decreases parent, 0, |e|
    ensures forall i :: 0 <= i < |r| ==> DeepDefined(r[i].1)
    ensures Keys(r) <= Keys(e)
    ensures DistinctKeys(e) ==> DistinctKeys(r)
    ensures DistinctKeys(e) ==> forall k :: k in Keys(r) <==> Lookup(e, k) != Undefined
  {
    if e == [] then []
    else
      var rest := RemoveUndefinedFields(Init(e), parent);
      var (k, v) := Last(e);
      if v == Undefined then rest
      else
        var r := rest + [(k, RemoveUndefined(v))];
        assert Init(r) == rest;
        r
  }

  /** `removeUndefinedValues` keeps every defined value, cleaned itself. */
  lemma {:induction false} RemoveUndefinedFieldsLookup(e: Entries, parent: Value, k: string)
    requires forall i :: 0 <= i < |e| ==> e[i].1 < parent
    requires DistinctKeys(e)
    decreases |e|
    ensures Lookup(RemoveUndefinedFields(e, parent), k) == RemoveUndefined(Lookup(e, k))
  {
    if e != [] {
      var rest := RemoveUndefinedFields(Init(e), parent);
      RemoveUndefinedFieldsLookup(Init(e), parent, k);
      var (k', v) := Last(e);
      if v != Undefined {
        var r := rest + [(k', RemoveUndefined(v))];
        assert RemoveUndefinedFields(e, parent) == r;
        assert Init(r) == rest && Last(r) == (k', RemoveUndefined(v));
      } else {
        assert RemoveUndefinedFields(e, parent) == rest;
      }
    }
  }

  /** The same for every property name at once. */
  lemma RemoveUndefinedFieldsLookups(e: Entries, parent: Value)
    requires forall i :: 0 <= i < |e| ==> e[i].1 < parent
    requires DistinctKeys(e)
    ensures forall k :: Lookup(RemoveUndefinedFields(e, parent), k) == RemoveUndefined(Lookup(e, k))
  {
    forall k {
      RemoveUndefinedFieldsLookup(e, parent, k);
    }
  }

  /** A value without `undefined` inside passes through unchanged. */
  lemma {:induction false} RemoveUndefinedIdentity(v: Value)
    requires DeepDefined(v)
    decreases v, 1
    ensures RemoveUndefined(v) == v
  {
    if v.Obj? {
      RemoveUndefinedFieldsIdentity(v.fields, v);
    }
  }

  lemma {:induction false} RemoveUndefinedFieldsIdentity(e: Entries, parent: Value)
    requires forall i :: 0 <= i < |e| ==> e[i].1 < parent
    requires forall i :: 0 <= i < |e| ==> DeepDefined(e[i].1)
    decreases parent, 0, |e|
    ensures RemoveUndefinedFields(e, parent) == e
  {
    if e != [] {
      RemoveUndefinedFieldsIdentity(Init(e), parent);
      RemoveUndefinedIdentity(Last(e).1);
    }
  }

  /** Marshalling with `removeUndefinedValues` is idempotent. */
  lemma RemoveUndefinedIdempotent(v: Value)
    ensures RemoveUndefined(RemoveUndefined(v)) == RemoveUndefined(v)
  {
    if v != Undefined {
      RemoveUndefinedIdentity(RemoveUndefined(v));
    }
  }
}
