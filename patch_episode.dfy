/** `functions/patch-episode/index.js`: the partial update of an episode.
    The builder turns the request body into one conditional `UpdateItem`
    request whose `SET` list writes every field of the body, plus the index
    sort key `GSI1SK` when the body carries `episodeNumber`. */
module PatchEpisode {
  import opened JsValue
  import opened JsObject
  import opened Dynamo
  import opened Http

  /** The clause ` #k = :k` the builder writes for field `k`. */
  function SetClause(k: string): string {
    " #" + k + " = :" + k
  }

  /** The clauses one field contributes: its own and, for `episodeNumber`,
      the derived index clause right after it. */
  function EntryClauses(k: string): seq<string> {
    if k == EPISODE_NUMBER then [SetClause(k), SetClause(INDEX_SORT_KEY)] else [SetClause(k)]
  }

  /** All clauses of an update, in the order of the body's entries. */
  function Clauses(input: Entries): seq<string> {
    if input == [] then [] else Clauses(Init(input)) + EntryClauses(Last(input).0)
  }

  /** The clauses, each followed by a comma. */
  function Terminated(cs: seq<string>): string {
    if cs == [] then "" else Terminated(cs[..|cs| - 1]) + cs[|cs| - 1] + ","
  }

  /** The clauses separated by `sep`. */
  function Join(cs: seq<string>, sep: string): string {
    if |cs| == 0 then ""
    else if |cs| == 1 then cs[0]
    else Join(cs[..|cs| - 1], sep) + sep + cs[|cs| - 1]
  }

  /** `s.slice(0, -1)`: everything but the last character. */
  function DropLast(s: string): string {
    if |s| == 0 then "" else s[..|s| - 1]
  }

  /** The expression attribute name `#k` standing for field `k`. */
  function NamePlaceholder(k: string): string {
    "#" + k
  }

  /** The expression attribute value `:k` standing for the value of `k`. */
  function ValuePlaceholder(k: string): string {
    ":" + k
  }

  function NamePlaceholders(ks: set<string>): set<string> {
    set k | k in ks :: NamePlaceholder(k)
  }

  function ValuePlaceholders(ks: set<string>): set<string> {
    set k | k in ks :: ValuePlaceholder(k)
  }

  /** What `:GSI1SK` holds once the entries have been written: the later of
      the string form of `episodeNumber` and a `GSI1SK` field of the body,
      none if the body has neither. */
  function IndexSortValue(input: Entries): (r: Option<Value>)
    ensures r.Some? <==> EPISODE_NUMBER in Keys(input) || INDEX_SORT_KEY in Keys(input)
  {
    if input == [] then None
    else if Last(input).0 == EPISODE_NUMBER then Some(Str(ToStr(Last(input).1)))
    else if Last(input).0 == INDEX_SORT_KEY then Some(Last(input).1)
    else IndexSortValue(Init(input))
  }

  /** `ExpressionAttributeNames` once the entries have been written. */
  ghost function NamesAfter(e: Entries): map<string, string> {
    if e == [] then PK_NAMES
    else
      var k := Last(e).0;
      var names := NamesAfter(Init(e))[NamePlaceholder(k) := k];
      if k == EPISODE_NUMBER then names[NamePlaceholder(INDEX_SORT_KEY) := INDEX_SORT_KEY] else names
  }

  /** `ExpressionAttributeValues` once the entries have been written. */
  ghost function ValuesAfter(e: Entries): map<string, Value> {
    if e == [] then map[]
    else
      var (k, v) := Last(e);
      var values := ValuesAfter(Init(e))[ValuePlaceholder(k) := v];
      if k == EPISODE_NUMBER then values[ValuePlaceholder(INDEX_SORT_KEY) := Str(ToStr(v))] else values
  }

  /** The `ExpressionAttributeNames` of an update for `input`: `#pk -> pk`,
      `#k -> k` for every field `k`, and `#GSI1SK -> GSI1SK` when the body has
      `episodeNumber`; nothing else. */
  predicate NamesFor(input: Entries, names: map<string, string>) {
    && names.Keys
       == {NamePlaceholder("pk")} + NamePlaceholders(Keys(input))
          + (if EPISODE_NUMBER in Keys(input) then {NamePlaceholder(INDEX_SORT_KEY)} else {})
    && names[NamePlaceholder("pk")] == "pk"
    && (forall k :: k in Keys(input) ==> names[NamePlaceholder(k)] == k)
    && (EPISODE_NUMBER in Keys(input) ==> names[NamePlaceholder(INDEX_SORT_KEY)] == INDEX_SORT_KEY)
  }

  /** The `ExpressionAttributeValues` of an update for `input`: `:k -> input[k]`
      for every field `k` but `GSI1SK`, and `:GSI1SK` exactly when the body has
      `episodeNumber` or `GSI1SK`, holding the later of the two writes
      (`IndexSortValue`); nothing else. */
  predicate ValuesFor(input: Entries, values: map<string, Value>) {
    && values.Keys
       == ValuePlaceholders(Keys(input))
          + (if EPISODE_NUMBER in Keys(input) then {ValuePlaceholder(INDEX_SORT_KEY)} else {})
    && (forall k :: k in Keys(input) && k != INDEX_SORT_KEY ==> values[ValuePlaceholder(k)] == Lookup(input, k))
    && (ValuePlaceholder(INDEX_SORT_KEY) in values) == IndexSortValue(input).Some?
    && (ValuePlaceholder(INDEX_SORT_KEY) in values
        ==> IndexSortValue(input) == Some(values[ValuePlaceholder(INDEX_SORT_KEY)]))
  }

  /** `NamesFor` leaves no choice: the builder's names map is a function of
      its input. */
  lemma NamesForUnique(input: Entries, n1: map<string, string>, n2: map<string, string>)
    requires NamesFor(input, n1) && NamesFor(input, n2)
    ensures n1 == n2
  {
    forall x | x in n1.Keys ensures n1[x] == n2[x] {
      if x in NamePlaceholders(Keys(input)) {
        var k :| k in Keys(input) && x == NamePlaceholder(k);
      }
    }
  }

  /** `ValuesFor` leaves no choice either. */
  lemma ValuesForUnique(input: Entries, v1: map<string, Value>, v2: map<string, Value>)
    requires ValuesFor(input, v1) && ValuesFor(input, v2)
    ensures v1 == v2
  {
    forall x | x in v1.Keys ensures v1[x] == v2[x] {
      if x != ValuePlaceholder(INDEX_SORT_KEY) {
        var k :| k in Keys(input) && x == ValuePlaceholder(k);
      }
    }
  }

  /** Whether `${value}` returns for every `episodeNumber` entry, so that
      no `:GSI1SK` write throws and the loop runs to its end. */
  predicate Convertible(input: Entries) {
    forall i :: 0 <= i < |input| && input[i].0 == EPISODE_NUMBER ==> TemplateLiteral(input[i].1).Ok?
  }

  /** `buildUpdateEpisodeCommand(episodeId, input)`, with `input` given as
      its `Object.entries` and `TABLE_NAME` as `tableName`. */
  method BuildUpdateEpisodeCommand(tableName: string, episodeId: string, input: Entries)
    returns (r: Result<UpdateCommand>)
    ensures r.Ok? <==> Convertible(input)
    ensures r.Throw? ==> r.error == "TypeError"
    ensures r.Ok? ==> r.value.tableName == tableName && r.value.key == EpisodeKey(episodeId)
    ensures r.Ok? ==> r.value.conditionExpression == "attribute_exists(#pk)"
    ensures r.Ok? ==> NamesFor(input, r.value.names)
    ensures r.Ok? ==> ValuesFor(input, r.value.values)
    ensures r.Ok? ==> r.value.updateExpression == if input == [] then "SE" else "SET" + Join(Clauses(input), ",")
  {
    var names := PK_NAMES;
    var values: map<string, Value> := map[];
    var updateExpression := "SET";
    ghost var written: Entries := [];
    var i := 0;
    while i < |input|
      invariant 0 <= i <= |input| && written == input[..i]
      invariant Convertible(written)
      invariant updateExpression == "SET" + Terminated(Clauses(written))
      invariant names == NamesAfter(written)
      invariant values == ValuesAfter(written)
    {
      var (key, value) := input[i];
      LoopStep(updateExpression, names, values, written, key, value);

      updateExpression := updateExpression + " #" + key + " = :" + key + ",";
      names := names[NamePlaceholder(key) := key];
      values := values[ValuePlaceholder(key) := value];

      if key == EPISODE_NUMBER {
        names := names[NamePlaceholder(INDEX_SORT_KEY) := INDEX_SORT_KEY];
        var text := TemplateLiteral(value);
        if text.Throw? {
          ConvertibleFails(input, i);
          return Throw(text.error);
        }
        values := values[ValuePlaceholder(INDEX_SORT_KEY) := Str(text.value)];
        updateExpression := updateExpression + " #" + INDEX_SORT_KEY + " = :" + INDEX_SORT_KEY + ",";
      }
      PrefixStep(input, i);
      ConvertibleStep(written, key, value);
      written := written + [(key, value)];
      i := i + 1;
    }
    assert written == input;
    AfterLoop(input);
    r := Ok(UpdateCommand(tableName, EpisodeKey(episodeId), "attribute_exists(#pk)",
                          names, values, DropLast(updateExpression)));
  }

  lemma PrefixStep(input: Entries, i: int)
    requires 0 <= i < |input|
    ensures input[..i + 1] == input[..i] + [input[i]]
  {
  }

  lemma ConvertibleStep(written: Entries, key: string, value: Value)
    requires Convertible(written)
    requires key == EPISODE_NUMBER ==> TemplateLiteral(value).Ok?
    ensures Convertible(written + [(key, value)])
  {
    var w := written + [(key, value)];
    assert forall i :: 0 <= i < |written| ==> w[i] == written[i];
  }

  lemma ConvertibleFails(input: Entries, i: int)
    requires 0 <= i < |input| && input[i].0 == EPISODE_NUMBER && TemplateLiteral(input[i].1).Throw?
    ensures !Convertible(input)
  {
  }

  /** One iteration of the builder's loop keeps the expression and the maps
      equal to their values after the entries written so far. */
  lemma LoopStep(s: string, names: map<string, string>, values: map<string, Value>,
                 written: Entries, key: string, value: Value)
    requires s == "SET" + Terminated(Clauses(written))
    requires names == NamesAfter(written) && values == ValuesAfter(written)
    ensures var s' := s + " #" + key + " = :" + key + ",";
      var names' := names[NamePlaceholder(key) := key];
      var values' := values[ValuePlaceholder(key) := value];
      var w := written + [(key, value)];
      if key == EPISODE_NUMBER then
        && s' + " #" + INDEX_SORT_KEY + " = :" + INDEX_SORT_KEY + "," == "SET" + Terminated(Clauses(w))
        && names'[NamePlaceholder(INDEX_SORT_KEY) := INDEX_SORT_KEY] == NamesAfter(w)
        && values'[ValuePlaceholder(INDEX_SORT_KEY) := Str(ToStr(value))] == ValuesAfter(w)
      else
        && s' == "SET" + Terminated(Clauses(w))
        && names' == NamesAfter(w)
        && values' == ValuesAfter(w)
  {
    WriteStep(written, key, value);
    ClauseStep(s, Clauses(written), key);
    if key == EPISODE_NUMBER {
      var cs := Clauses(written) + [SetClause(key)];
      ClauseStep(s + " #" + key + " = :" + key + ",", cs, INDEX_SORT_KEY);
      assert cs + [SetClause(INDEX_SORT_KEY)] == Clauses(written) + EntryClauses(key);
    }
  }

  /** What the maps and the sliced expression hold once every entry of
      `input` has been written. */
  lemma AfterLoop(input: Entries)
    ensures NamesFor(input, NamesAfter(input))
    ensures ValuesFor(input, ValuesAfter(input))
    ensures DropLast("SET" + Terminated(Clauses(input)))
         == if input == [] then "SE" else "SET" + Join(Clauses(input), ",")
  {
    ExpressionAfterSlice(Clauses(input));
    ClausesEmpty(input);
    NamesAfterWrites(input);
    ValuesAfterWrites(input);
  }

  /** What writing one more entry does to the clause list and the maps. */
  lemma WriteStep(e: Entries, k: string, v: Value)
    ensures Clauses(e + [(k, v)]) == Clauses(e) + EntryClauses(k)
    ensures NamesAfter(e + [(k, v)])
         == if k == EPISODE_NUMBER
            then NamesAfter(e)[NamePlaceholder(k) := k][NamePlaceholder(INDEX_SORT_KEY) := INDEX_SORT_KEY]
            else NamesAfter(e)[NamePlaceholder(k) := k]
    ensures ValuesAfter(e + [(k, v)])
         == if k == EPISODE_NUMBER
            then ValuesAfter(e)[ValuePlaceholder(k) := v][ValuePlaceholder(INDEX_SORT_KEY) := Str(ToStr(v))]
            else ValuesAfter(e)[ValuePlaceholder(k) := v]
  {
    assert Init(e + [(k, v)]) == e && Last(e + [(k, v)]) == (k, v);
  }

  /** Every field gets `#k -> k`, `#pk` is always there, and `#GSI1SK` joins
      exactly when `episodeNumber` is written. */
  lemma {:induction false} NamesAfterWrites(e: Entries)
    ensures NamesFor(e, NamesAfter(e))
  {
    if e == [] {
      IndexPlaceholders();
    } else {
      NamesAfterWrites(Init(e));
      NamesStepKeys(e);
      NamesStepTargets(e);
    }
  }

  lemma NamesStepKeys(e: Entries)
    requires e != [] && NamesFor(Init(e), NamesAfter(Init(e)))
    ensures NamesAfter(e).Keys
         == {NamePlaceholder("pk")} + NamePlaceholders(Keys(e))
            + (if EPISODE_NUMBER in Keys(e) then {NamePlaceholder(INDEX_SORT_KEY)} else {})
  {
    PlaceholdersAdd(Keys(Init(e)), Last(e).0);
  }

  lemma NamesStepTargets(e: Entries)
    requires e != [] && NamesFor(Init(e), NamesAfter(Init(e)))
    ensures NamesAfter(e)[NamePlaceholder("pk")] == "pk"
    ensures forall k :: k in Keys(e) ==> NamesAfter(e)[NamePlaceholder(k)] == k
    ensures EPISODE_NUMBER in Keys(e) ==> NamesAfter(e)[NamePlaceholder(INDEX_SORT_KEY)] == INDEX_SORT_KEY
  {
    var k := Last(e).0;
    PlaceholdersDistinct();
    forall k' | k' != k ensures NamePlaceholder(k') != NamePlaceholder(k) {
      PrefixInjective("#", k', k);
    }
    forall k' | k' in Keys(e) ensures NamesAfter(e)[NamePlaceholder(k')] == k' {
      if k' != k && k == EPISODE_NUMBER && k' != INDEX_SORT_KEY {
        PrefixInjective("#", k', INDEX_SORT_KEY);
      }
    }
  }

  /** Every field other than `GSI1SK` gets `:k -> its value`; `:GSI1SK` is
      present exactly when `episodeNumber` or `GSI1SK` is written and then
      holds the later write. */
  lemma {:induction false} ValuesAfterWrites(e: Entries)
    ensures ValuesFor(e, ValuesAfter(e))
  {
    if e != [] {
      ValuesAfterWrites(Init(e));
      ValuesStepKeys(e);
      ValuesStepTargets(e);
    }
  }

  lemma ValuesStepKeys(e: Entries)
    requires e != [] && ValuesFor(Init(e), ValuesAfter(Init(e)))
    ensures ValuesAfter(e).Keys
         == ValuePlaceholders(Keys(e))
            + (if EPISODE_NUMBER in Keys(e) then {ValuePlaceholder(INDEX_SORT_KEY)} else {})
  {
    PlaceholdersAdd(Keys(Init(e)), Last(e).0);
  }

  lemma ValuesStepTargets(e: Entries)
    requires e != [] && ValuesFor(Init(e), ValuesAfter(Init(e)))
    ensures forall k :: k in Keys(e) && k != INDEX_SORT_KEY ==> ValuesAfter(e)[ValuePlaceholder(k)] == Lookup(e, k)
    ensures (ValuePlaceholder(INDEX_SORT_KEY) in ValuesAfter(e)) == IndexSortValue(e).Some?
    ensures ValuePlaceholder(INDEX_SORT_KEY) in ValuesAfter(e)
        ==> IndexSortValue(e) == Some(ValuesAfter(e)[ValuePlaceholder(INDEX_SORT_KEY)])
  {
    var k := Last(e).0;
    PlaceholdersDistinct();
    forall k' | k' != k ensures ValuePlaceholder(k') != ValuePlaceholder(k) {
      PrefixInjective(":", k', k);
    }
    forall k' | k' in Keys(e) && k' != INDEX_SORT_KEY
      ensures ValuesAfter(e)[ValuePlaceholder(k')] == Lookup(e, k')
    {
      PrefixInjective(":", k', INDEX_SORT_KEY);
    }
  }

  lemma PlaceholdersAdd(ks: set<string>, k: string)
    ensures NamePlaceholders(ks + {k}) == NamePlaceholders(ks) + {NamePlaceholder(k)}
    ensures ValuePlaceholders(ks + {k}) == ValuePlaceholders(ks) + {ValuePlaceholder(k)}
  {
  }

  /** `episodeNumber` and its derived index key have distinct placeholders. */
  lemma PlaceholdersDistinct()
    ensures NamePlaceholder(EPISODE_NUMBER) != NamePlaceholder(INDEX_SORT_KEY)
    ensures ValuePlaceholder(EPISODE_NUMBER) != ValuePlaceholder(INDEX_SORT_KEY)
  {
    assert |NamePlaceholder(EPISODE_NUMBER)| != |NamePlaceholder(INDEX_SORT_KEY)|;
    assert |ValuePlaceholder(EPISODE_NUMBER)| != |ValuePlaceholder(INDEX_SORT_KEY)|;
  }

  lemma IndexPlaceholders()
    ensures NamePlaceholder(INDEX_SORT_KEY) == "#GSI1SK" && ValuePlaceholder(INDEX_SORT_KEY) == ":GSI1SK"
    ensures NamePlaceholder("pk") == "#pk"
  {
  }

  lemma PrefixInjective(p: string, a: string, b: string)
    ensures p + a == p + b ==> a == b
  {
    assert (p + a)[|p|..] == a && (p + b)[|p|..] == b;
  }

  /** Appending ` #k = :k,` to the accumulated expression appends the
      clause of `k` to its clause list. */
  lemma ClauseStep(s: string, cs: seq<string>, k: string)
    requires s == "SET" + Terminated(cs)
    ensures s + " #" + k + " = :" + k + "," == "SET" + Terminated(cs + [SetClause(k)])
  {
    assert (cs + [SetClause(k)])[..|cs|] == cs;
  }

  lemma ClausesEmpty(input: Entries)
    ensures (Clauses(input) == []) == (input == [])
  {
  }

  lemma {:induction false} TerminatedIsJoined(cs: seq<string>)
    requires cs != []
    ensures Terminated(cs) == Join(cs, ",") + ","
  {
    if |cs| > 1 {
      TerminatedIsJoined(cs[..|cs| - 1]);
    }
  }

  /** Dropping the last character of `"SET"` followed by the terminated
      clauses removes the trailing comma, or the `T` when there is none. */
  lemma ExpressionAfterSlice(cs: seq<string>)
    ensures DropLast("SET" + Terminated(cs)) == if cs == [] then "SE" else "SET" + Join(cs, ",")
  {
    if cs != [] {
      TerminatedIsJoined(cs);
      var s := "SET" + Join(cs, ",");
      assert "SET" + Terminated(cs) == s + ",";
      assert (s + ",")[..|s|] == s;
    }
  }

  lemma {:induction false} ClausesAppend(a: Entries, b: Entries)
    ensures Clauses(a + b) == Clauses(a) + Clauses(b)
  {
    if b == [] {
      assert a + b == a;
    } else {
      assert Init(a + b) == a + Init(b) && Last(a + b) == Last(b);
      ClausesAppend(a, Init(b));
    }
  }

  /** One clause per field, plus one when the body has `episodeNumber`. */
  lemma {:induction false} ClauseCount(input: Entries)
    requires DistinctKeys(input)
    ensures |Clauses(input)| == |input| + (if EPISODE_NUMBER in Keys(input) then 1 else 0)
  {
    if input != [] {
      ClauseCount(Init(input));
    }
  }

  /** Without `episodeNumber` the i-th clause sets the i-th field. */
  lemma {:induction false} ClausesWithoutEpisodeNumber(input: Entries)
    requires EPISODE_NUMBER !in Keys(input)
    ensures |Clauses(input)| == |input|
    ensures forall i :: 0 <= i < |input| ==> Clauses(input)[i] == SetClause(input[i].0)
  {
    if input != [] {
      ClausesWithoutEpisodeNumber(Init(input));
    }
  }

  /** With `episodeNumber` its clause is followed at once by the `GSI1SK`
      clause, and the fields before and after it set one clause each. */
  lemma IndexClauseFollowsEpisodeNumber(before: Entries, v: Value, after: Entries)
    requires DistinctKeys(before + [(EPISODE_NUMBER, v)] + after)
    ensures EPISODE_NUMBER !in Keys(before) && EPISODE_NUMBER !in Keys(after)
    ensures Clauses(before + [(EPISODE_NUMBER, v)] + after)
         == Clauses(before) + [SetClause(EPISODE_NUMBER), SetClause(INDEX_SORT_KEY)] + Clauses(after)
  {
    var mid: Entries := [(EPISODE_NUMBER, v)];
    DistinctKeysAppend(before + mid, after);
    DistinctKeysAppend(before, mid);
    KeysAppend(before, mid);
    assert Init(mid) == [];
    ClausesAppend(before + mid, after);
    ClausesAppend(before, mid);
  }

  /** Where `:GSI1SK` comes from when at most one of `episodeNumber` and
      `GSI1SK` is in the body. */
  lemma {:induction false} IndexSortValueSource(input: Entries)
    ensures EPISODE_NUMBER in Keys(input) && INDEX_SORT_KEY !in Keys(input)
        ==> IndexSortValue(input) == Some(Str(ToStr(Lookup(input, EPISODE_NUMBER))))
    ensures EPISODE_NUMBER !in Keys(input) && INDEX_SORT_KEY in Keys(input)
        ==> IndexSortValue(input) == Some(Lookup(input, INDEX_SORT_KEY))
    ensures IndexSortValue(input).None? == (EPISODE_NUMBER !in Keys(input) && INDEX_SORT_KEY !in Keys(input))
  {
    if input != [] {
      IndexSortValueSource(Init(input));
    }
  }

  /** A body with neither `episodeNumber` nor `GSI1SK` leaves no `#GSI1SK`
      and no `:GSI1SK` in the maps. */
  lemma NoIndexEntries(input: Entries, names: map<string, string>, values: map<string, Value>)
    requires NamesFor(input, names) && ValuesFor(input, values)
    requires EPISODE_NUMBER !in Keys(input) && INDEX_SORT_KEY !in Keys(input)
    ensures NamePlaceholder(INDEX_SORT_KEY) !in names
    ensures ValuePlaceholder(INDEX_SORT_KEY) !in values
  {
    IndexSortValueSource(input);
    IndexPlaceholders();
    if NamePlaceholder(INDEX_SORT_KEY) in NamePlaceholders(Keys(input)) {
      var k :| k in Keys(input) && NamePlaceholder(INDEX_SORT_KEY) == NamePlaceholder(k);
      PrefixInjective("#", INDEX_SORT_KEY, k);
    }
  }

  /** The index sort key written for an integer `episodeNumber` reads back
      as that integer. */
  lemma IndexSortKeyEncodesEpisodeNumber(input: Entries, n: int)
    requires Lookup(input, EPISODE_NUMBER) == Int(n)
    requires INDEX_SORT_KEY !in Keys(input)
    ensures IndexSortValue(input).Some? && IndexSortValue(input).value.Str?
    ensures ParseInt(IndexSortValue(input).value.s) == n
  {
    IndexSortValueSource(input);
    IntToDecimalRoundTrip(n);
  }

  /** The handler: 204 on success, 404 when the existence condition failed,
      500 otherwise, every response with the CORS header. */
  method Handler(outcome: Outcome) returns (response: Response)
    ensures response.headers == CORS_HEADERS
    ensures outcome.Completed? ==> response.statusCode == NO_CONTENT && response.body.None?
    ensures outcome.Threw? && outcome.errorName == CONDITIONAL_CHECK_FAILED
        ==> response.statusCode == NOT_FOUND
            && PlainText(NOT_FOUND_MESSAGE) && response.body == Some(MessageBody(NOT_FOUND_MESSAGE))
    ensures outcome.Threw? && outcome.errorName != CONDITIONAL_CHECK_FAILED
        ==> response.statusCode == INTERNAL_SERVER_ERROR
            && PlainText(GENERIC_MESSAGE) && response.body == Some(MessageBody(GENERIC_MESSAGE))
  {
    FixedMessagesPlain();
    if outcome.Completed? {
      return Response(NO_CONTENT, CORS_HEADERS, None);
    }
    response := Response(INTERNAL_SERVER_ERROR, CORS_HEADERS, None);
    var message := GENERIC_MESSAGE;
    if outcome.errorName == CONDITIONAL_CHECK_FAILED {
      response := response.(statusCode := NOT_FOUND);
      message := NOT_FOUND_MESSAGE;
    }
    response := response.(body := Some(MessageBody(message)));
  }

  /** `episodeNumber` brings the index clause and its string form. */
  method ExampleEpisodeNumber() {
    var input := [(EPISODE_NUMBER, Int(5))];
    assert Init(input) == [];
    assert Convertible(input);
    var r := BuildUpdateEpisodeCommand("episodes", "01F8MECHZX", input);
    var cs := [SetClause(EPISODE_NUMBER), SetClause(INDEX_SORT_KEY)];
    assert Clauses(input) == cs && cs[..1] == [SetClause(EPISODE_NUMBER)];
    assert Join(cs, ",") == SetClause(EPISODE_NUMBER) + "," + SetClause(INDEX_SORT_KEY);
    assert r.value.updateExpression == "SET" + SetClause(EPISODE_NUMBER) + "," + SetClause(INDEX_SORT_KEY);
    assert IndexSortValue(input) == Some(Str("5"));
  }

  /** An empty body leaves the truncated keyword `SE`. */
  method ExampleEmptyBody() {
    var r := BuildUpdateEpisodeCommand("episodes", "01F8MECHZX", []);
    assert r.Ok? && r.value.updateExpression == "SE";
  }

  /** An `episodeNumber` object with an own `toString` makes the builder
      throw. */
  method ExampleUnconvertibleEpisodeNumber() {
    var inner: Entries := [("toString", Int(1))];
    assert Init(inner) == [];
    var input := [(EPISODE_NUMBER, Obj(inner))];
    assert input[0].0 == EPISODE_NUMBER && TemplateLiteral(input[0].1).Throw?;
    var r := BuildUpdateEpisodeCommand("episodes", "01F8MECHZX", input);
    assert r == Throw("TypeError");
  }
}
