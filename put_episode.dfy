/** `functions/put-episode/index.js`: the full replacement of an episode.
    The builder merges the episode key, the request body and, when the body
    has a truthy `episodeNumber`, the index fields into one conditional
    `PutItem` request. */
module PutEpisode {
  import opened JsValue
  import opened JsObject
  import opened Dynamo
  import opened Http

  /** The index fields `{GSI1PK: 'episode#', GSI1SK: sortKey}`. */
  function IndexFields(sortKey: Value): (r: Entries)
    ensures Keys(r) == {INDEX_PARTITION_KEY, INDEX_SORT_KEY} && DistinctKeys(r)
    ensures Lookup(r, INDEX_PARTITION_KEY) == Str(EPISODE_SORT_KEY)
    ensures Lookup(r, INDEX_SORT_KEY) == sortKey
  {
    var r := [(INDEX_PARTITION_KEY, Str(EPISODE_SORT_KEY)), (INDEX_SORT_KEY, sortKey)];
    assert Init(r) == [(INDEX_PARTITION_KEY, Str(EPISODE_SORT_KEY))] && Init(Init(r)) == [];
    assert Keys(Init(r)) == {INDEX_PARTITION_KEY} && DistinctKeys(Init(r));
    r
  }

  /** Whether the body gets index fields: `input.episodeNumber` is truthy. */
  predicate Indexed(input: Entries) {
    Truthy(Lookup(input, EPISODE_NUMBER))
  }

  /** The item `{pk, sk: 'episode#', ...input, ...input.episodeNumber &&
      {GSI1PK: 'episode#', GSI1SK: indexSortKey}}`; the source passes the raw
      `episodeNumber` as `indexSortKey`. */
  function ReplaceItem(episodeId: string, input: Entries, indexSortKey: Value): (item: Entries)
    ensures Keys(item) == {"pk", "sk"} + Keys(input)
                          + (if Indexed(input) then {INDEX_PARTITION_KEY, INDEX_SORT_KEY} else {})
    ensures DistinctKeys(item)
    ensures |item| >= 2 && item[0].0 == "pk" && item[1].0 == "sk"
  {
    SpreadIf(Spread(EpisodeKey(episodeId), input), Indexed(input), IndexFields(indexSortKey))
  }

  /** `pk` is the path's episode id unless the body carries its own, which
      then wins. */
  lemma ReplaceItemPartitionKey(episodeId: string, input: Entries, indexSortKey: Value)
    ensures Lookup(ReplaceItem(episodeId, input, indexSortKey), "pk")
         == if "pk" in Keys(input) then Lookup(input, "pk") else Str(episodeId)
  {
    KeyNotIndexed(indexSortKey);
    KeyUnderBody(episodeId, input);
  }

  /** `sk` is `episode#` unless the body carries its own, which then wins. */
  lemma ReplaceItemSortKey(episodeId: string, input: Entries, indexSortKey: Value)
    ensures Lookup(ReplaceItem(episodeId, input, indexSortKey), "sk")
         == if "sk" in Keys(input) then Lookup(input, "sk") else Str(EPISODE_SORT_KEY)
  {
    KeyNotIndexed(indexSortKey);
    KeyUnderBody(episodeId, input);
  }

  lemma KeyNotIndexed(indexSortKey: Value)
    ensures "pk" !in Keys(IndexFields(indexSortKey)) && "sk" !in Keys(IndexFields(indexSortKey))
  {
  }

  lemma KeyUnderBody(episodeId: string, input: Entries)
    ensures Lookup(Spread(EpisodeKey(episodeId), input), "pk")
         == if "pk" in Keys(input) then Lookup(input, "pk") else Str(episodeId)
    ensures Lookup(Spread(EpisodeKey(episodeId), input), "sk")
         == if "sk" in Keys(input) then Lookup(input, "sk") else Str(EPISODE_SORT_KEY)
  {
  }

  /** Every field of the body is stored unchanged, except the two index
      fields when `episodeNumber` is truthy. */
  lemma ReplaceItemFields(episodeId: string, input: Entries, indexSortKey: Value)
    ensures forall k :: k in Keys(input) && !(Indexed(input) && (k == INDEX_PARTITION_KEY || k == INDEX_SORT_KEY))
                    ==> Lookup(ReplaceItem(episodeId, input, indexSortKey), k) == Lookup(input, k)
  {
  }

  /** With a truthy `episodeNumber` the index fields are `episode#` and the
      given sort key, whatever the body says. */
  lemma ReplaceItemIndex(episodeId: string, input: Entries, indexSortKey: Value)
    requires Indexed(input)
    ensures Lookup(ReplaceItem(episodeId, input, indexSortKey), INDEX_PARTITION_KEY) == Str(EPISODE_SORT_KEY)
    ensures Lookup(ReplaceItem(episodeId, input, indexSortKey), INDEX_SORT_KEY) == indexSortKey
  {
  }

  /** `buildReplaceEpisodeCommand(episodeId, input)` as written: `GSI1SK`
      is the raw `episodeNumber`. `marshall` without options is the identity
      here, a parsed body having no `undefined` in it. */
  function BuildReplaceEpisodeCommand(tableName: string, episodeId: string, input: Entries): (cmd: PutCommand)
    ensures cmd.tableName == tableName
    ensures cmd.item == ReplaceItem(episodeId, input, Lookup(input, EPISODE_NUMBER))
    ensures cmd.conditionExpression == "attribute_exists(#pk)"
    ensures cmd.names == PK_NAMES
  {
    PutCommand(tableName, ReplaceItem(episodeId, input, Lookup(input, EPISODE_NUMBER)),
               "attribute_exists(#pk)", PK_NAMES)
  }

  /** The same command with `GSI1SK: `${input.episodeNumber}``, the string
      form the create and patch paths store. The template literal is only
      evaluated when `episodeNumber` is truthy, and can then throw. */
  function BuildReplaceEpisodeCommandCorrected(tableName: string, episodeId: string, input: Entries)
    : (r: Result<PutCommand>)
    ensures r.Ok? <==> TemplateLiteral(Lookup(input, EPISODE_NUMBER)).Ok?
    ensures r.Throw? ==> r.error == "TypeError"
    ensures r.Ok? ==> r.value.tableName == tableName
    ensures r.Ok? ==> r.value.item == ReplaceItem(episodeId, input, Str(ToStr(Lookup(input, EPISODE_NUMBER))))
    ensures r.Ok? ==> r.value.conditionExpression == "attribute_exists(#pk)" && r.value.names == PK_NAMES
  {
    var sortKey := if Indexed(input) then TemplateLiteral(Lookup(input, EPISODE_NUMBER)) else Ok(ToStr(Lookup(input, EPISODE_NUMBER)));
    match sortKey
    case Throw(error) => Throw(error)
    case Ok(text) => Ok(PutCommand(tableName, ReplaceItem(episodeId, input, Str(text)), "attribute_exists(#pk)", PK_NAMES))
  }

  /** As written, an integer `episodeNumber` reaches the index sort key as a
      number, not as the string the other two paths write. */
  lemma ReplaceStoresRawEpisodeNumber(tableName: string, episodeId: string)
    ensures var item := BuildReplaceEpisodeCommand(tableName, episodeId, [(EPISODE_NUMBER, Int(5))]).item;
      Lookup(item, INDEX_SORT_KEY) == Int(5) && !Lookup(item, INDEX_SORT_KEY).Str?
  {
    var input := [(EPISODE_NUMBER, Int(5))];
    assert Init(input) == [] && Lookup(input, EPISODE_NUMBER) == Int(5);
  }

  /** Corrected, the index sort key is the string form of `episodeNumber`
      and reads back as the integer. */
  lemma ReplaceIndexSortKeyEncodesEpisodeNumber(tableName: string, episodeId: string, input: Entries, n: int)
    requires Lookup(input, EPISODE_NUMBER) == Int(n) && n != 0
    ensures BuildReplaceEpisodeCommandCorrected(tableName, episodeId, input).Ok?
    ensures var item := BuildReplaceEpisodeCommandCorrected(tableName, episodeId, input).value.item;
      Lookup(item, INDEX_SORT_KEY).Str? && ParseInt(Lookup(item, INDEX_SORT_KEY).s) == n
  {
    ReplaceItemIndex(episodeId, input, Str(ToStr(Int(n))));
  }

  /** The handler: the same outcome-to-response mapping as the patch
      handler, built as one value. */
  function Handler(outcome: Outcome): (response: Response)
    ensures response.headers == CORS_HEADERS
    ensures outcome.Completed? ==> response.statusCode == NO_CONTENT && response.body.None?
    ensures outcome.Threw? && outcome.errorName == CONDITIONAL_CHECK_FAILED
        ==> response.statusCode == NOT_FOUND
            && PlainText(NOT_FOUND_MESSAGE) && response.body == Some(MessageBody(NOT_FOUND_MESSAGE))
    ensures outcome.Threw? && outcome.errorName != CONDITIONAL_CHECK_FAILED
        ==> response.statusCode == INTERNAL_SERVER_ERROR
            && PlainText(GENERIC_MESSAGE) && response.body == Some(MessageBody(GENERIC_MESSAGE))
  {
    FixedMessagesPlain();
    match outcome
    case Completed => Response(NO_CONTENT, CORS_HEADERS, None)
    case Threw(name) =>
      if name == CONDITIONAL_CHECK_FAILED then Response(NOT_FOUND, CORS_HEADERS, Some(MessageBody(NOT_FOUND_MESSAGE)))
      else Response(INTERNAL_SERVER_ERROR, CORS_HEADERS, Some(MessageBody(GENERIC_MESSAGE)))
  }
}
