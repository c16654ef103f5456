# Episode handlers: a verified model

A Dafny model of the three AWS Lambda handlers of `intro-to-serverless` that
write podcast episodes to a DynamoDB table. In each handler a small builder
turns a request body into a DynamoDB request description. Those builders,
plus the handlers' mapping of outcomes to HTTP responses, are the part
modelled here:

- `functions/patch-episode/index.js` is the partial update. A loop over the
  body's entries builds three things: the `SET` update expression, the
  `ExpressionAttributeNames` map and the `ExpressionAttributeValues` map.
  An `episodeNumber` field also writes the index sort key `GSI1SK`, as its
  string form. This builder is an imperative method whose loop invariants tie
  its state to specification functions (`Clauses`, `NamesAfter`,
  `ValuesAfter`).
- `functions/put-episode/index.js` is the full replacement. It is one object
  literal: `{pk, sk, ...input, ...input.episodeNumber && {GSI1PK, GSI1SK}}`.
- `functions/create-episode/index.js` is the creation. An object literal
  copies a whitelist of fields from `data`. Two fields are optional and
  appear only when truthy. `isPublished` is coerced with `=== true`. The
  record is saved with `marshall(…, {removeUndefinedValues: true})` under the
  condition `attribute_not_exists(#pk)`.

Modules:

- `JsValue` (`js_value.dfy`): the JavaScript values a parsed body holds.
  Numbers are integers. It defines truthiness (`Truthy`) and the string
  conversion of a primitive (`ToStr`, which gives `[object Object]` for any
  object), and proves that the decimal form of an integer parses back.
- `JsObject` (`js_object.dfy`): objects as entry lists in insertion order,
  i.e. `Object.entries` order. It covers property read, property assignment
  and object spread, including the `...cond && {…}` idiom, and the template
  literal `${v}` (`TemplateLiteral`), which throws when `v` is an object with
  an own `toString`.
- `Dynamo` (`dynamo.dfy`): the request descriptions, the episode key, and the
  key and index constants. It also models `removeUndefinedValues` as a
  recursive removal of `undefined` properties.
- `Http` (`http.dfy`): status codes, the CORS header and the error messages.
- `PatchEpisode`, `PutEpisode`, `CreateEpisode`: the three handlers and their
  builders.

The table name (`process.env.TABLE_NAME`) is a parameter of every builder,
and so is the new episode's id (`ULID.ulid()`). The patch and put handlers
take the way their `try` block ended (`Outcome`: normally, or by an exception
with a given `name`) in place of running the parse and the DynamoDB call.

In these places the code does something other than the behaviour a reader
would expect, and the model follows the code:

- An empty partial update is not a well-formed no-op. The code slices the
  last character off `"SET"` and sends the expression `"SE"` (`PatchEpisode.ExpressionAfterSlice`,
  `PatchEpisode.ExampleEmptyBody`).
- The derived index value is not always the string form of the ordinal.
  A body with both `episodeNumber` and its own `GSI1SK` field gets two
  ` #GSI1SK = :GSI1SK` clauses, in either order. The code writes entries in
  order, so whichever of the two fields comes later decides `:GSI1SK`.
  `IndexSortValue` names the value that survives, and
  `PatchEpisode.IndexSortValueSource` proves that it is the string form
  whenever the body has no `GSI1SK` of its own.
- Not every failure becomes a response. The create handler has no `catch`,
  so a `TypeError` or a failed save rejects the invocation (`CreateEpisode.Handler` returns `Throw`).
- A template literal `${v}` throws a TypeError when `v` is a parsed object
  with an own `toString` property, because that property cannot be called. This
  makes the patch builder throw (`PatchEpisode.BuildUpdateEpisodeCommand`
  returns `Throw`, and the handler answers 500), and it makes `buildDbEpisode`
  throw (`CreateEpisode.UnconvertibleEpisodeNumberThrows`).
- In the put path, a `pk` or `sk` field in the body overrides the path's key,
  because the body is spread after the key (`PutEpisode.ReplaceItemPartitionKey`).

## Model

| member | source | states |
|---|---|---|
| `PatchEpisode.BuildUpdateEpisodeCommand` | functions/patch-episode/index.js:42-73 | The builder throws a TypeError exactly when the template literal of an `episodeNumber` value throws (`Convertible`). Otherwise: the key is `{pk: episodeId, sk: 'episode#'}` and the condition is `attribute_exists(#pk)`. The names map is exactly `#pk -> pk`, plus `#k -> k` per field, plus `#GSI1SK -> GSI1SK` when `episodeNumber` is present. The values map is exactly `:k -> input[k]` per field, plus `:GSI1SK` holding the later of the two writes. The expression is `"SET"` followed by the comma-joined clause list, and `"SE"` when the body is empty |
| `PatchEpisode.NamesAfterWrites` | functions/patch-episode/index.js:57-63 | After the loop has written any list of entries, the names map holds exactly the placeholders described above, each mapped to its field name |
| `PatchEpisode.ValuesAfterWrites` | functions/patch-episode/index.js:57-64 | After the loop has written any list of entries, the values map holds `:k -> value` for each field, and `:GSI1SK` exactly when `episodeNumber` or `GSI1SK` was written, holding the last such write |
| `PatchEpisode.NamesForUnique` | functions/patch-episode/index.js:50-63 | The names map is determined by the body: two maps that meet the specification are equal, so equal calls give equal names |
| `PatchEpisode.ValuesForUnique` | functions/patch-episode/index.js:53-64 | The values map is determined by the body in the same way |
| `PatchEpisode.ExpressionAfterSlice` | functions/patch-episode/index.js:56-69 | `slice(0, -1)` of `"SET"` plus the comma-terminated clauses gives the clauses joined by commas with no trailing comma, and `"SE"` when there is no clause |
| `PatchEpisode.ClauseCount` | functions/patch-episode/index.js:57-66 | There is one clause per field, plus one when `episodeNumber` is present |
| `PatchEpisode.ClausesWithoutEpisodeNumber` | functions/patch-episode/index.js:57-58 | Without `episodeNumber`, the i-th clause is ` #k = :k` for the i-th entry, in entry order |
| `PatchEpisode.IndexClauseFollowsEpisodeNumber` | functions/patch-episode/index.js:58-66 | The `#GSI1SK = :GSI1SK` clause comes right after the `episodeNumber` clause. The fields before and after contribute their clauses unchanged |
| `PatchEpisode.IndexSortValue` | functions/patch-episode/index.js:60-64 | The value `:GSI1SK` ends up holding exists exactly when the body has `episodeNumber` or `GSI1SK` |
| `PatchEpisode.IndexSortValueSource` | functions/patch-episode/index.js:60-64 | If the body has `episodeNumber` and no `GSI1SK`, `:GSI1SK` is the template-string form of the value. If it has only a `GSI1SK` field, that field's value is used. If it has neither, there is no `:GSI1SK` |
| `PatchEpisode.NoIndexEntries` | functions/patch-episode/index.js:59-65 | A body with neither `episodeNumber` nor `GSI1SK` gives no `#GSI1SK` name and no `:GSI1SK` value |
| `PatchEpisode.IndexSortKeyEncodesEpisodeNumber` | functions/patch-episode/index.js:64 | For an integer `episodeNumber`, when the body has no `GSI1SK` field of its own, `:GSI1SK` is a string that parses back to that integer |
| `PatchEpisode.Handler` | functions/patch-episode/index.js:13-33 | Success gives 204 with no body. `ConditionalCheckFailedException` gives 404 with the not-found message. Any other error gives 500 with `Something went wrong`. Every response carries `Access-Control-Allow-Origin: *` |
| `PutEpisode.IndexFields` | functions/put-episode/index.js:49-52 | The index fields are exactly `GSI1PK = 'episode#'` and `GSI1SK` = the given sort key |
| `PutEpisode.ReplaceItem` | functions/put-episode/index.js:45-53 | The item's keys are `{pk, sk}`, plus the body's keys, plus `{GSI1PK, GSI1SK}` when `episodeNumber` is truthy, and none are repeated. `pk` and `sk` come first in insertion order |
| `PutEpisode.ReplaceItemPartitionKey` | functions/put-episode/index.js:46-48 | `pk` is the path id unless the body has its own `pk`, which then wins |
| `PutEpisode.ReplaceItemSortKey` | functions/put-episode/index.js:47-48 | `sk` is `'episode#'` unless the body has its own `sk`, which then wins |
| `PutEpisode.ReplaceItemFields` | functions/put-episode/index.js:48-52 | Every body field is stored unchanged, except `GSI1PK`/`GSI1SK` when `episodeNumber` is truthy |
| `PutEpisode.ReplaceItemIndex` | functions/put-episode/index.js:49-52 | When `episodeNumber` is truthy, `GSI1PK` is `'episode#'` and `GSI1SK` is the given sort key, whatever the body holds |
| `PutEpisode.BuildReplaceEpisodeCommand` | functions/put-episode/index.js:42-59 | As written: the item uses the raw `episodeNumber` as `GSI1SK`. The condition is `attribute_exists(#pk)` and the names map is `#pk -> pk` |
| `PutEpisode.BuildReplaceEpisodeCommandCorrected` | functions/put-episode/index.js:49-52 | The same command with `GSI1SK` set to the string form of `episodeNumber`. It throws a TypeError exactly when that template literal throws |
| `PutEpisode.ReplaceStoresRawEpisodeNumber` | functions/put-episode/index.js:51 | As written, a body `{episodeNumber: 5}` stores `GSI1SK` as the number 5, not as a string |
| `PutEpisode.ReplaceIndexSortKeyEncodesEpisodeNumber` | functions/put-episode/index.js:49-52 | Corrected, a non-zero integer `episodeNumber` gives a string `GSI1SK` that parses back to it |
| `PutEpisode.Handler` | functions/put-episode/index.js:13-33 | The same 204 / 404 / 500 mapping with the CORS header and the `{message}` bodies |
| `CreateEpisode.GuestRecord` | functions/create-episode/index.js:25-29 | The guest object has exactly `name` and `bio`, plus `twitter` only when that is truthy, each copied from `data.guest` |
| `CreateEpisode.ReadData` | functions/create-episode/index.js:19-24 | When `data` is a primitive other than `null`/`undefined`, all five reads `data.episodeNumber` to `data.guest` give `undefined` |
| `CreateEpisode.ReadDataEntries` | functions/create-episode/index.js:19-24 | For a parsed body with distinct names, each of the five reads gives the value written at the position of that name in the body |
| `JsObject.LookupEntry` | functions/create-episode/index.js:19-24 | In an object with distinct names, reading the name of the entry at position `i` gives that entry's value |
| `CreateEpisode.Record` | functions/create-episode/index.js:15-31 | The record literal has no property twice |
| `CreateEpisode.RecordKeys` | functions/create-episode/index.js:15-31 | The record's fields are `pk, sk, GSI1PK, GSI1SK, name, isPublished, episodeNumber`, plus `description` and `guest` exactly when those are truthy |
| `CreateEpisode.RecordWhitelist` | functions/create-episode/index.js:15-31 | No field outside the nine record fields ever appears; reading any other name gives `undefined` |
| `CreateEpisode.RecordFixedFields` | functions/create-episode/index.js:16-23 | `pk` is the new id. `sk` and `GSI1PK` are `'episode#'`. `GSI1SK` is the template-string form of `data.episodeNumber`. `name` and `episodeNumber` are copied |
| `CreateEpisode.RecordIndexSortKeyEncodesEpisodeNumber` | functions/create-episode/index.js:19 | For an integer `episodeNumber`, `GSI1SK` is a string that parses back to it |
| `CreateEpisode.MissingEpisodeNumberIndexSortKey` | functions/create-episode/index.js:19 | With no `episodeNumber` in `data`, `GSI1SK` is the string `"undefined"` |
| `CreateEpisode.RecordIsPublished` | functions/create-episode/index.js:21 | `isPublished` is `true` exactly when `data.isPublished` is the boolean `true`, and `false` otherwise |
| `CreateEpisode.RecordDescription` | functions/create-episode/index.js:22 | `description` is present if and only if `data.description` is truthy, and then it equals that value |
| `CreateEpisode.RecordGuest` | functions/create-episode/index.js:24-30 | `guest` is present if and only if `data.guest` is truthy, and then it is the guest object |
| `CreateEpisode.BuildDbEpisode` | functions/create-episode/index.js:14-32 | It succeeds exactly when `data` is neither `null` nor `undefined` and the template literal of `data.episodeNumber` returns. It then yields the record; otherwise it throws a `TypeError` |
| `CreateEpisode.UnconvertibleEpisodeNumberThrows` | functions/create-episode/index.js:19 | `data = {episodeNumber: {toString: 1}}` makes the builder throw a TypeError |
| `CreateEpisode.BuildSaveEpisodeCommand` | functions/create-episode/index.js:39-48 | The condition is `attribute_not_exists(#pk)` and the names map is `#pk -> pk`. The item has no `undefined` at any depth, and its names are distinct when the record's are |
| `CreateEpisode.SavedItemLookup` | functions/create-episode/index.js:42 | For a record with distinct names, each name of the saved item reads as the record's value with every nested `undefined` property dropped. A name whose value was `undefined` is absent from the item |
| `CreateEpisode.Handler` | functions/create-episode/index.js:7-12 | It returns `{id}` exactly when the record was built (no TypeError) and saved, and the saved item's `pk` is that same id. Otherwise it rethrows the TypeError or the save's error |
| `JsObject.Lookup` | functions/create-episode/index.js:19-24 | A property read gives `undefined` for a name the object lacks |
| `JsObject.GetProp` | functions/put-episode/index.js:49-51 | Reading a property of a primitive, or one an object lacks, gives `undefined` |
| `JsObject.TemplateLiteral` | functions/patch-episode/index.js:64 | `${v}` (also `${data.episodeNumber}` at create-episode/index.js:19) throws a TypeError exactly when `v` is an object with an own `toString`, and otherwise gives the primitive's string form; `JsObject.TemplateLiteralIsToPrimitive` is its independent reference |
| `JsObject.TemplateLiteralIsToPrimitive` | functions/patch-episode/index.js:64 | `${v}` agrees with ECMAScript's ToString(ToPrimitive(v, string)). An object tries `toString`, then `valueOf`. An own property of a parsed object is data and is skipped. The inherited `toString` gives `[object Object]`, the inherited `valueOf` gives no primitive, and a TypeError follows when both fail |
| `JsObject.Put` | functions/create-episode/index.js:15-23 | Assigning a property sets it and leaves every other property and every existing position as it was |
| `JsObject.Spread` | functions/put-episode/index.js:46-48 | In `{...target, ...src}`, `src` wins on shared names and the keys are the union. Distinct keys are kept, and so are the positions of `target`'s keys |
| `JsObject.SpreadIf` | functions/put-episode/index.js:49-52 | `...cond && src` adds the properties of `src` only when `cond` holds |
| `Dynamo.EpisodeKey` | functions/patch-episode/index.js:45-48 | The key is exactly `{pk: episodeId, sk: 'episode#'}` |
| `Dynamo.RemoveUndefined` | functions/create-episode/index.js:42 | `removeUndefinedValues` leaves non-objects alone. For a defined value it gives a result with no `undefined` inside |
| `Dynamo.RemoveUndefinedFields` | functions/create-episode/index.js:42 | A property survives exactly when its value is not `undefined`, and keys stay distinct |
| `Dynamo.RemoveUndefinedFieldsLookup` | functions/create-episode/index.js:42 | Each surviving property holds its original value, itself cleaned |
| `Dynamo.RemoveUndefinedIdempotent` | functions/create-episode/index.js:42 | Marshalling with `removeUndefinedValues` twice is the same as once |
| `JsValue.Truthy` | functions/create-episode/index.js:22-28 | ToBoolean, which gates the `&&` spreads: a truthy value is neither `null` nor `undefined`, and every object is truthy, so a given guest object is always spread |
| `JsValue.FalsyValues` | functions/put-episode/index.js:49 | The falsy values are exactly `undefined`, `null`, `false`, `0` and `""` |
| `JsValue.ToStr` | functions/create-episode/index.js:19 | The template-string form of an integer parses back to it, and a string converts to itself |
| `JsValue.IntToDecimal` | functions/patch-episode/index.js:64 | The decimal form is non-empty, starts with `-` exactly for negative numbers, and is digits after that |
| `Http.MessageBody` | functions/patch-episode/index.js:32 | `JSON.stringify({ message })` (also put-episode/index.js:32), for a message with no quotation mark, backslash or control character: the body is `{"message":"`, the message, then `"}`, so the message is recovered from the body (`Http.MessageBodyInjective`) |
| `Http.MessageBodyInjective` | functions/patch-episode/index.js:32 | For messages JSON writes without escapes, different messages give different `JSON.stringify({ message })` bodies |
| `Http.FixedBodiesDiffer` | functions/put-episode/index.js:26-32 | Both fixed messages need no escaping, and the 404 body and the 500 body differ |
| `JsValue.IntToDecimalRoundTrip` | functions/patch-episode/index.js:64 | The template-string form of an integer parses back to the integer |
| `JsValue.ToStrIntInjective` | functions/create-episode/index.js:19 | Distinct integers get distinct string forms, so the index sort key tells episode numbers apart |

## Left out

- The DynamoDB client, `ddb.send` and the async wrappers `updateEpisode`, `replaceEpisode` and `saveEpisode` are left out because they are network I/O. The patch and put handlers receive how the call ended as an `Outcome`, and the create handler receives it as `save`.
- `JSON.parse` of `event.body` is left out, as is reading `event.pathParameters`. The builders take the parsed body as an entry list, and a failure in either step is one more `Threw` outcome for the handler.
- Http.MessageBody: `JSON.stringify` escaping is not modelled, so the function accepts only messages with no quotation mark, backslash or control character. `Http.FixedMessagesPlain` proves that both fixed messages qualify, and the handlers send only those.
- `console.error` logging is left out.
- `marshall`'s attribute-value encoding (`{S: …}`, `{N: …}`, `{M: …}`) is left out because it belongs to a foreign library. Values stay abstract, so `marshall` without options is the identity. It also throws on an `undefined` value, which is not modelled. A parsed JSON body holds no `undefined`. The key's `episodeId` comes from `event.pathParameters`, and the model takes it as a string. A missing path parameter is folded into the handler's `Threw` outcome.
- Numbers are integers only. Floating point, the exponent forms of `Number.prototype.toString` and `-0` are left out. So are arrays, and the `toString` of an array used as an `episodeNumber`.
- JsValue.ToStr: `Int` is unbounded, but a JavaScript number holds integers exactly only up to 2^53. `JSON.parse` rounds a larger literal to the nearest double, and its string form then differs from the exact decimal numeral (`${2**60}` is `1152921504606847000`). The model's integers are exact.
- PatchEpisode.BuildUpdateEpisodeCommand: `marshall` refuses a number beyond `Number.MAX_SAFE_INTEGER`. The model does not make the builder throw for one, so its `Ok` clause covers bodies whose integers JavaScript would not accept.
- PutEpisode.BuildReplaceEpisodeCommand: the same `marshall` refusal of integers beyond `Number.MAX_SAFE_INTEGER` is not modelled.
- CreateEpisode.BuildSaveEpisodeCommand: the same `marshall` refusal of integers beyond `Number.MAX_SAFE_INTEGER` is not modelled. `CreateEpisode.Handler` inherits this.
- Properties inherited through the prototype chain are left out, as is the special `__proto__` key of `JSON.parse`. Reading a property of a primitive gives `undefined`, which holds for every name the handlers read.
- Object ordering is left out: JavaScript lists integer-like property names (`"0"`, `"17"`) first in ascending order, and the model keeps plain insertion order. This changes the clause order of a patch body with such names, and the order of the put item's keys.
- PutEpisode.ReplaceItem: `pk` and `sk` come first only in insertion order. In JavaScript's own key order, integer-like body keys are listed before them.
- A patch or put body that is not an object is left out, and the builders take an object's entries. The left-out cases behave like this:
  - For a number or boolean body, `Object.entries` gives `[]` and the spread adds nothing. Patch then sends `"SE"`, and put stores just `{pk, sk}`.
  - For a `null` body, `Object.entries` throws in patch. In put the spread of `null` adds nothing, and `input.episodeNumber` throws a TypeError.
  - A string body is read as its character indexes.
- `PatchEpisode.BuildUpdateEpisodeCommand`: the names and values maps are `map`s, so the order in which properties were added to these JavaScript objects is not modelled. DynamoDB does not depend on it.
- The table definition `template.yaml`, including the declared attribute type of `GSI1SK`, is not part of this model.

## Findings

| source | as written | input that shows it | evidently intended | confidence | as-written member | corrected member |
|---|---|---|---|---|---|---|
| functions/put-episode/index.js:51 | `GSI1SK: input.episodeNumber` stores the raw value, while create (`create-episode/index.js:19`) and patch (`patch-episode/index.js:64`) store `` `${episodeNumber}` `` | body `{"episodeNumber": 5}` gives `GSI1SK` = the number `5` where the other paths write the string `"5"`, so the index sort key changes type when an episode is replaced | `` GSI1SK: `${input.episodeNumber}` `` | medium, not executed | `PutEpisode.ReplaceStoresRawEpisodeNumber` | `PutEpisode.BuildReplaceEpisodeCommandCorrected` |
