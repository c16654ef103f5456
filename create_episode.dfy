/** `functions/create-episode/index.js`: the creation of an episode from
    the event's `data`, with a fresh identifier supplied by the caller. */
module CreateEpisode {
  import opened JsValue
  import opened JsObject
  import opened Dynamo
  import opened Http

  /** The fields a created episode can have. */
  const RECORD_FIELDS: set<string> :=
    {"pk"} + {"sk"} + {INDEX_PARTITION_KEY} + {INDEX_SORT_KEY} + {"name"} + {"isPublished"}
    + {"description"} + {EPISODE_NUMBER} + {"guest"}

  /** The record's field names are pairwise distinct. */
  lemma FieldNamesDistinct()
    ensures "pk" != "sk" && "pk" != INDEX_PARTITION_KEY && "pk" != INDEX_SORT_KEY && "pk" != "name" && "pk" != "isPublished" && "pk" != "description" && "pk" != EPISODE_NUMBER && "pk" != "guest"
    ensures "sk" != INDEX_PARTITION_KEY && "sk" != INDEX_SORT_KEY && "sk" != "name" && "sk" != "isPublished" && "sk" != "description" && "sk" != EPISODE_NUMBER && "sk" != "guest"
    ensures INDEX_PARTITION_KEY != INDEX_SORT_KEY && INDEX_PARTITION_KEY != "name" && INDEX_PARTITION_KEY != "isPublished" && INDEX_PARTITION_KEY != "description" && INDEX_PARTITION_KEY != EPISODE_NUMBER && INDEX_PARTITION_KEY != "guest"
    ensures INDEX_SORT_KEY != "name" && INDEX_SORT_KEY != "isPublished" && INDEX_SORT_KEY != "description" && INDEX_SORT_KEY != EPISODE_NUMBER && INDEX_SORT_KEY != "guest"
    ensures "name" != "isPublished" && "name" != "description" && "name" != EPISODE_NUMBER && "name" != "guest"
    ensures "isPublished" != "description" && "isPublished" != EPISODE_NUMBER && "isPublished" != "guest"
    ensures "description" != EPISODE_NUMBER && "description" != "guest"
    ensures EPISODE_NUMBER != "guest"
  {
  }

  /** `{name: guest.name, bio: guest.bio, ...guest.twitter && {twitter}}`. */
  function GuestRecord(guest: Value): (r: Entries)
    requires !Nullish(guest)
    ensures DistinctKeys(r)
    ensures Keys(r) == {"name"} + {"bio"} + (if Truthy(GetProp(guest, "twitter")) then {"twitter"} else {})
    ensures Lookup(r, "name") == GetProp(guest, "name") && Lookup(r, "bio") == GetProp(guest, "bio")
    ensures Truthy(GetProp(guest, "twitter")) ==> Lookup(r, "twitter") == GetProp(guest, "twitter")
  {
    var twitter := GetProp(guest, "twitter");
    var r := Put(Put([], "name", GetProp(guest, "name")), "bio", GetProp(guest, "bio"));
    // Spreading a one-property object assigns that property.
    if Truthy(twitter) then Put(r, "twitter", twitter) else r
  }

  /** The properties of `data` the builder reads. */
  datatype EpisodeData = EpisodeData(
    episodeNumber: Value,
    name: Value,
    isPublished: Value,
    description: Value,
    guest: Value)

  /** `data.episodeNumber`, `data.name`, ... of a `data` that is neither
      `null` nor `undefined`. */
  function ReadData(data: Value): (d: EpisodeData)
    requires !Nullish(data)
    ensures !data.Obj? ==> d == EpisodeData(Undefined, Undefined, Undefined, Undefined, Undefined)
    ensures data.Obj? ==> d.episodeNumber == Lookup(data.fields, EPISODE_NUMBER) && d.name == Lookup(data.fields, "name")
    ensures data.Obj? ==> d.isPublished == Lookup(data.fields, "isPublished")
    ensures data.Obj? ==> d.description == Lookup(data.fields, "description") && d.guest == Lookup(data.fields, "guest")
  {
    EpisodeData(GetProp(data, EPISODE_NUMBER), GetProp(data, "name"), GetProp(data, "isPublished"),
                GetProp(data, "description"), GetProp(data, "guest"))
  }

  /** What reading `entry` of `data` puts into `d`: the value of whichever
      of the five fields the entry names. */
  predicate ReadsEntry(d: EpisodeData, entry: (string, Value)) {
    && (entry.0 == EPISODE_NUMBER ==> d.episodeNumber == entry.1)
    && (entry.0 == "name" ==> d.name == entry.1)
    && (entry.0 == "isPublished" ==> d.isPublished == entry.1)
    && (entry.0 == "description" ==> d.description == entry.1)
    && (entry.0 == "guest" ==> d.guest == entry.1)
  }

  /** A parsed body with distinct names: every field the builder reads has
      the value written at that field's position. */
  lemma ReadDataEntries(data: Value)
    requires data.Obj? && DistinctKeys(data.fields)
    ensures forall i :: 0 <= i < |data.fields| ==> ReadsEntry(ReadData(data), data.fields[i])
  {
    LookupEntries(data.fields);
  }

  /** The object literal of `buildDbEpisode`, its properties defined in the
      order the literal lists them. */
  function Record(id: string, d: EpisodeData): (e: Entries)
    ensures DistinctKeys(e)
  {
    var head :=
      Put(Put(Put(Put(Put(Put([],
        "pk", Str(id)),
        "sk", Str(EPISODE_SORT_KEY)),
        INDEX_PARTITION_KEY, Str(EPISODE_SORT_KEY)),
        INDEX_SORT_KEY, Str(ToStr(d.episodeNumber))),
        "name", d.name),
        "isPublished", Bool(d.isPublished == Bool(true)));
    var described := if Truthy(d.description) then Put(head, "description", d.description) else head;
    var numbered := Put(described, EPISODE_NUMBER, d.episodeNumber);
    // `&&` does not evaluate the guest object when `data.guest` is falsy.
    if Truthy(d.guest) then Put(numbered, "guest", Obj(GuestRecord(d.guest))) else numbered
  }

  /** The record's fields: the seven fixed ones, plus `description` and
      `guest` exactly when those are truthy in `data`. */
  lemma RecordKeys(id: string, d: EpisodeData)
    ensures Keys(Record(id, d))
         == {"pk"} + {"sk"} + {INDEX_PARTITION_KEY} + {INDEX_SORT_KEY} + {"name"} + {"isPublished"}
            + (if Truthy(d.description) then {"description"} else {})
            + {EPISODE_NUMBER}
            + (if Truthy(d.guest) then {"guest"} else {})
  {
  }

  /** No field of `data` outside the whitelist reaches the record. */
  lemma RecordWhitelist(id: string, d: EpisodeData)
    ensures Keys(Record(id, d)) <= RECORD_FIELDS
    ensures forall k :: k !in RECORD_FIELDS ==> Lookup(Record(id, d), k) == Undefined
  {
    RecordKeys(id, d);
  }

  /** The key, index and copied fields, whatever `data` holds. */
  lemma RecordFixedFields(id: string, d: EpisodeData)
    ensures var e := Record(id, d);
      && Lookup(e, "pk") == Str(id)
      && Lookup(e, "sk") == Str(EPISODE_SORT_KEY)
      && Lookup(e, INDEX_PARTITION_KEY) == Str(EPISODE_SORT_KEY)
      && Lookup(e, INDEX_SORT_KEY) == Str(ToStr(d.episodeNumber))
      && Lookup(e, "name") == d.name
      && Lookup(e, EPISODE_NUMBER) == d.episodeNumber
  {
    FieldNamesDistinct();
  }

  /** The index sort key reads back as an integer `episodeNumber`. */
  lemma RecordIndexSortKeyEncodesEpisodeNumber(id: string, d: EpisodeData, n: int)
    requires d.episodeNumber == Int(n)
    ensures Lookup(Record(id, d), INDEX_SORT_KEY).Str?
    ensures ParseInt(Lookup(Record(id, d), INDEX_SORT_KEY).s) == n
  {
    RecordFixedFields(id, d);
    IntToDecimalRoundTrip(n);
  }

  /** Without `episodeNumber` in `data` the index sort key is the string
      `"undefined"`. */
  lemma MissingEpisodeNumberIndexSortKey(id: string, data: Value)
    requires !Nullish(data) && GetProp(data, EPISODE_NUMBER) == Undefined
    ensures BuildDbEpisode(id, data).Ok?
    ensures Lookup(BuildDbEpisode(id, data).value, INDEX_SORT_KEY) == Str("undefined")
  {
    RecordFixedFields(id, ReadData(data));
  }

  /** `isPublished` is `true` exactly when `data.isPublished` is the boolean
      `true`, and `false` otherwise. */
  lemma RecordIsPublished(id: string, d: EpisodeData)
    ensures Lookup(Record(id, d), "isPublished") == Bool(d.isPublished == Bool(true))
  {
    FieldNamesDistinct();
  }

  /** Which of the two optional names a record's key set holds. */
  lemma OptionalKeys(e: Entries, described: bool, guested: bool)
    requires Keys(e)
          == {"pk"} + {"sk"} + {INDEX_PARTITION_KEY} + {INDEX_SORT_KEY} + {"name"} + {"isPublished"}
             + (if described then {"description"} else {})
             + {EPISODE_NUMBER}
             + (if guested then {"guest"} else {})
    ensures "description" in Keys(e) <==> described
    ensures "guest" in Keys(e) <==> guested
  {
  }

  /** `description` appears exactly when `data.description` is truthy, and
      then holds it. */
  lemma RecordDescription(id: string, d: EpisodeData)
    ensures "description" in Keys(Record(id, d)) <==> Truthy(d.description)
    ensures Truthy(d.description) ==> Lookup(Record(id, d), "description") == d.description
  {
    FieldNamesDistinct();
    RecordKeys(id, d);
    OptionalKeys(Record(id, d), Truthy(d.description), Truthy(d.guest));
  }

  /** `guest` appears exactly when `data.guest` is truthy, and then holds
      the guest record. */
  lemma RecordGuest(id: string, d: EpisodeData)
    ensures "guest" in Keys(Record(id, d)) <==> Truthy(d.guest)
    ensures Truthy(d.guest) ==> Lookup(Record(id, d), "guest") == Obj(GuestRecord(d.guest))
  {
    FieldNamesDistinct();
    RecordKeys(id, d);
    OptionalKeys(Record(id, d), Truthy(d.description), Truthy(d.guest));
  }

  /** `buildDbEpisode(data)` with `ULID.ulid()` given as `id`. Reading
      `data.episodeNumber` throws a TypeError when `data` is `null` or
      `undefined`, and so does its template literal when it is an object with
      an own `toString`. */
  function BuildDbEpisode(id: string, data: Value): (r: Result<Entries>)
    ensures r.Ok? <==> !Nullish(data) && TemplateLiteral(GetProp(data, EPISODE_NUMBER)).Ok?
    ensures r.Throw? ==> r.error == "TypeError"
    ensures r.Ok? ==> r.value == Record(id, ReadData(data))
  {
    if Nullish(data) then Throw("TypeError")
    else
      match TemplateLiteral(GetProp(data, EPISODE_NUMBER))
      case Throw(error) => Throw(error)
      case Ok(_) => Ok(Record(id, ReadData(data)))
  }

  /** `data = {episodeNumber: {toString: 1}}` passes the `null` check but
      its index sort key cannot be formed. */
  lemma UnconvertibleEpisodeNumberThrows(id: string)
    ensures BuildDbEpisode(id, Obj([(EPISODE_NUMBER, Obj([("toString", Int(1))]))])) == Throw("TypeError")
  {
    var inner: Entries := [("toString", Int(1))];
    var data: Entries := [(EPISODE_NUMBER, Obj(inner))];
    assert Init(inner) == [] && Init(data) == [];
    assert GetProp(Obj(data), EPISODE_NUMBER) == Obj(inner);
  }

  /** `buildSaveEpisodeCommand(episode)`: the record with every `undefined`
      property dropped, written only if no row has its key yet. */
  function BuildSaveEpisodeCommand(tableName: string, episode: Entries): (cmd: PutCommand)
    ensures cmd.tableName == tableName
    ensures cmd.conditionExpression == "attribute_not_exists(#pk)"
    ensures cmd.names == PK_NAMES
    ensures forall i :: 0 <= i < |cmd.item| ==> DeepDefined(cmd.item[i].1)
    ensures DistinctKeys(episode) ==> DistinctKeys(cmd.item)
  {
    PutCommand(tableName, RemoveUndefinedFields(episode, Obj(episode)), "attribute_not_exists(#pk)", PK_NAMES)
  }

  /** The saved item reads, field by field, as the record with every
      `undefined` dropped. */
  lemma SavedItemLookup(tableName: string, episode: Entries)
    requires DistinctKeys(episode)
    ensures forall k :: Lookup(BuildSaveEpisodeCommand(tableName, episode).item, k) == RemoveUndefined(Lookup(episode, k))
  {
    RemoveUndefinedFieldsLookups(episode, Obj(episode));
  }

  /** The handler: build the record, save it, answer `{id: episode.pk}`. A
      TypeError from the builder or a failed save rejects the invocation. */
  function Handler(tableName: string, id: string, data: Value, save: Outcome): (r: Result<Value>)
    ensures r.Ok? <==> BuildDbEpisode(id, data).Ok? && save.Completed?
    ensures BuildDbEpisode(id, data).Throw? ==> r == Throw("TypeError")
    ensures BuildDbEpisode(id, data).Ok? && save.Threw? ==> r == Throw(save.errorName)
    ensures r.Ok? ==> r.value == Obj([("id", Str(id))])
    ensures r.Ok? ==> Lookup(BuildSaveEpisodeCommand(tableName, BuildDbEpisode(id, data).value).item, "pk") == Str(id)
  {
    match BuildDbEpisode(id, data)
    case Throw(error) => Throw(error)
    case Ok(episode) =>
      RecordFixedFields(id, ReadData(data));
      SavedItemLookup(tableName, episode);
      match save
      case Threw(name) => Throw(name)
      case Completed => Ok(Obj([("id", Lookup(episode, "pk"))]))
  }
}
