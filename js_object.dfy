/** Plain JavaScript objects as ordered entry lists, with the three
    operations the handlers apply to them: property read, property
    assignment (which also defines the properties of an object literal) and
    object spread `{...a, ...b}`. */
module JsObject {
  import opened JsValue

  function Init(e: Entries): Entries
    requires |e| > 0
  {
    e[..|e| - 1]
  }

  function Last(e: Entries): (string, Value)
    requires |e| > 0
  {
    e[|e| - 1]
  }

  /** Names of the own properties. */
  function Keys(e: Entries): set<string> {
    if e == [] then {} else Keys(Init(e)) + {Last(e).0}
  }

  /** No property name occurs twice, as in every JavaScript object. */
  predicate DistinctKeys(e: Entries) {
    e == [] || (DistinctKeys(Init(e)) && Last(e).0 !in Keys(Init(e)))
  }

  /** Property read `o[k]`: the value stored under `k`, `undefined` when
      there is none. */
  function Lookup(e: Entries, k: string): (v: Value)
    ensures k !in Keys(e) ==> v == Undefined
  {
    if e == [] then Undefined
    else if Last(e).0 == k then Last(e).1
    else Lookup(Init(e), k)
  }

  /** Property read `v.k` on a value that is not `null` or `undefined`.
      Primitives have none of the property names the handlers read. */
  function GetProp(v: Value, k: string): (r: Value)
    requires !Nullish(v)
    ensures !v.Obj? ==> r == Undefined
    ensures v.Obj? && k !in Keys(v.fields) ==> r == Undefined
  {
    if v.Obj? then Lookup(v.fields, k) else Undefined
  }

  /** A template literal `${v}`. ToPrimitive tries the object's `toString`
      and then its `valueOf`. A parsed object with an own `toString` property
      has a value there that cannot be called. The inherited `valueOf` then
      returns the object itself, so the conversion throws a TypeError. Any
      other value converts as `ToStr` says. */
  function TemplateLiteral(v: Value): (r: Result<string>)
    ensures r.Throw? <==> v.Obj? && "toString" in Keys(v.fields)
    ensures r.Throw? ==> r.error == "TypeError"
    ensures r.Ok? ==> r.value == ToStr(v)
  {
    if v.Obj? && "toString" in Keys(v.fields) then Throw("TypeError") else Ok(ToStr(v))
  }

  /** OrdinaryToPrimitive(o, string) of section 7.1.1.1 of ECMA-262 on a
      parsed object: the methods named in `methods` are tried in turn. An own
      property of a parsed object is data, never a function, so it is
      skipped. The inherited `Object.prototype.toString` returns
      `"[object Object]"`. The inherited `Object.prototype.valueOf` returns
      the object itself, which is not a primitive, so the search goes on.
      When no method is left, the conversion throws a TypeError. */
  function OrdinaryToPrimitive(fields: Entries, methods: seq<string>): Result<string>
    decreases |methods|
  {
    if methods == [] then Throw("TypeError")
    else if methods[0] in Keys(fields) then OrdinaryToPrimitive(fields, methods[1..])
    else if methods[0] == "toString" then Ok("[object Object]")
    else OrdinaryToPrimitive(fields, methods[1..])
  }

  /** ToString(ToPrimitive(v, string)), the conversion a template literal
      applies: objects go through `toString` then `valueOf`, primitives
      convert directly. */
  function ToPrimitiveString(v: Value): Result<string> {
    match v
    case Obj(fs) => OrdinaryToPrimitive(fs, ["toString", "valueOf"])
    case _ => Ok(ToStr(v))
  }

  /** `TemplateLiteral` is the ECMAScript conversion. */
  lemma TemplateLiteralIsToPrimitive(v: Value)
    ensures TemplateLiteral(v) == ToPrimitiveString(v)
  {
    if v.Obj? {
      var methods := ["toString", "valueOf"];
      assert methods[1..] == ["valueOf"] && methods[1..][1..] == [];
      if "toString" in Keys(v.fields) {
        assert OrdinaryToPrimitive(v.fields, methods) == OrdinaryToPrimitive(v.fields, ["valueOf"]);
        assert OrdinaryToPrimitive(v.fields, ["valueOf"]) == OrdinaryToPrimitive(v.fields, []);
      }
    }
  }

  /** An entry of an object with distinct names is what a read of its name
      gives. */
  lemma {:induction false} LookupEntry(e: Entries, i: int)
    requires DistinctKeys(e) && 0 <= i < |e|
    ensures Lookup(e, e[i].0) == e[i].1
  {
    if i < |e| - 1 {
      assert Init(e)[i] == e[i];
      KeyAt(Init(e), i);
      LookupEntry(Init(e), i);
    }
  }

  lemma {:induction false} KeyAt(e: Entries, i: int)
    requires 0 <= i < |e|
    ensures e[i].0 in Keys(e)
  {
    if i < |e| - 1 {
      assert Init(e)[i] == e[i];
      KeyAt(Init(e), i);
    }
  }

  /** `LookupEntry` for every entry at once. */
  lemma LookupEntries(e: Entries)
    requires DistinctKeys(e)
    ensures forall i :: 0 <= i < |e| ==> Lookup(e, e[i].0) == e[i].1
  {
    forall i | 0 <= i < |e| {
      LookupEntry(e, i);
    }
  }

  /** Overwrites the value of an existing property in place. */
  function Replace(e: Entries, k: string, v: Value): (r: Entries)
    requires k in Keys(e)
    ensures |r| == |e|
    ensures forall i :: 0 <= i < |e| ==> r[i].0 == e[i].0
    ensures Keys(r) == Keys(e)
    ensures Lookup(r, k) == v
    ensures forall k' :: k' != k ==> Lookup(r, k') == Lookup(e, k')
    ensures DistinctKeys(e) ==> DistinctKeys(r)
  {
    if Last(e).0 == k then Init(e) + [(k, v)]
    else
      var r := Replace(Init(e), k, v) + [Last(e)];
      assert Init(r) == Replace(Init(e), k, v);
      r
  }

  /** Property assignment `o[k] = v`: an existing property keeps its place
      and takes the new value, a new one is added at the end. */
  function Put(e: Entries, k: string, v: Value): (r: Entries)
    ensures Keys(r) == Keys(e) + {k}
    ensures Lookup(r, k) == v
    ensures forall k' :: k' != k ==> Lookup(r, k') == Lookup(e, k')
    ensures DistinctKeys(e) ==> DistinctKeys(r)
    ensures |r| >= |e| && forall i :: 0 <= i < |e| ==> r[i].0 == e[i].0
  {
    if k in Keys(e) then Replace(e, k, v)
    else
      var r := e + [(k, v)];
      assert Init(r) == e;
      r
  }

  /** Object spread `{...target, ...src}`: the properties of `src` are
      assigned one by one, in order, over those of `target`. */
  function Spread(target: Entries, src: Entries): (r: Entries)
    ensures Keys(r) == Keys(target) + Keys(src)
    ensures forall k :: Lookup(r, k) == if k in Keys(src) then Lookup(src, k) else Lookup(target, k)
    ensures DistinctKeys(target) ==> DistinctKeys(r)
    ensures |r| >= |target| && forall i :: 0 <= i < |target| ==> r[i].0 == target[i].0
  {
    if src == [] then target
    else Put(Spread(target, Init(src)), Last(src).0, Last(src).1)
  }

  /** The idiom `{...target, ...cond && src}`: spreading a falsy value adds
      no property, so `src` is spread only when `cond` holds. */
  function SpreadIf(target: Entries, cond: bool, src: Entries): (r: Entries)
    ensures Keys(r) == Keys(target) + (if cond then Keys(src) else {})
    ensures forall k :: Lookup(r, k) == if cond && k in Keys(src) then Lookup(src, k) else Lookup(target, k)
    ensures DistinctKeys(target) ==> DistinctKeys(r)
    ensures |r| >= |target| && forall i :: 0 <= i < |target| ==> r[i].0 == target[i].0
  {
    if cond then Spread(target, src) else target
  }

  lemma {:induction false} KeysAppend(a: Entries, b: Entries)
    ensures Keys(a + b) == Keys(a) + Keys(b)
  {
    if b != [] {
      assert Init(a + b) == a + Init(b);
      KeysAppend(a, Init(b));
    } else {
      assert a + b == a;
    }
  }

  /** The two halves of an object with distinct keys have distinct keys and
      share none. */
  lemma {:induction false} DistinctKeysAppend(a: Entries, b: Entries)
    requires DistinctKeys(a + b)
    ensures DistinctKeys(a) && DistinctKeys(b) && Keys(a) !! Keys(b)
  {
    if b == [] {
      assert a + b == a;
    } else {
      assert Init(a + b) == a + Init(b);
      DistinctKeysAppend(a, Init(b));
      KeysAppend(a, Init(b));
    }
  }
}
