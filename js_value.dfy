/**
 * JavaScript values as the core handles them: primitives, arrays, and objects with
 * an identity, own string-keyed properties in insertion order and an optional
 * `toJSON` result.
 */
module Js {
  import opened Wrappers
  import opened Strings
  import opened Sorting

  /** Numbers are integers or NaN; an object carries its identity `id`, so two
      occurrences of the same `id` in one value are two references to one object. */
  datatype JsValue =
    | Undefined
    | Null
    | Bool(b: bool)
    | Num(n: int)
    | NaN
    | BigInt(big: int)
    | Str(s: string)
    | Function
    | Symbol
    | Array(items: seq<JsValue>)
    | Object(id: nat, fields: seq<Field>, hook: Option<JsValue>)

  /** One own enumerable property. */
  datatype Field = Field(key: string, value: JsValue)

  function Key(f: Field): string
  {
    f.key
  }

  /** JavaScript truthiness (`if (v)`, `!v`, `v || d`). */
  predicate Truthy(v: JsValue)
  {
    match v
    case Undefined => false
    case Null => false
    case Bool(b) => b
    case Num(n) => n != 0
    case NaN => false
    case BigInt(n) => n != 0
    case Str(s) => s != ""
    case _ => true
  }

  /** `a === b`. Objects compare by identity; arrays, functions and symbols carry no
      identity here and are never strictly equal to anything. */
  predicate StrictEquals(a: JsValue, b: JsValue)
  {
    if a.Object? then b.Object? && a.id == b.id
    else a == b && !a.NaN? && !a.Function? && !a.Symbol? && !a.Array?
  }

  /** The property names of an object, in order. */
  function Keys(fields: seq<Field>): (ks: seq<string>)
    ensures |ks| == |fields| && forall i | 0 <= i < |fields| :: ks[i] == fields[i].key
  {
    if fields == [] then [] else [fields[0].key] + Keys(fields[1..])
  }

  /** A JavaScript object never holds two properties with one name. */
  predicate WellKeyed(fields: seq<Field>)
  {
    UniqueKeys(fields, Key)
  }

  /** `obj[k]`: the property's value, or `undefined` when there is none. */
  function Lookup(fields: seq<Field>, k: string): JsValue
  {
    if fields == [] then Undefined
    else if fields[0].key == k then fields[0].value
    else Lookup(fields[1..], k)
  }

  /** A present property's value is the one stored under its name; a missing one reads
      as `undefined`. */
  lemma {:induction false} LookupFound(fields: seq<Field>, k: string)
    ensures k in Keys(fields) ==> Field(k, Lookup(fields, k)) in fields
    ensures k !in Keys(fields) ==> Lookup(fields, k) == Undefined
  {
    if fields != [] {
      assert Keys(fields) == [fields[0].key] + Keys(fields[1..]);
      LookupFound(fields[1..], k);
    }
  }

  /** `{...obj, [k]: v}`: an existing property keeps its place and takes the new value;
      a new one goes last. */
  function Put(fields: seq<Field>, k: string, v: JsValue): seq<Field>
  {
    if fields == [] then [Field(k, v)]
    else if fields[0].key == k then [Field(k, v)] + fields[1..]
    else [fields[0]] + Put(fields[1..], k, v)
  }

  /** `const {[k]: _, ...rest} = obj`: every property but `k`, in order. */
  function Omit(fields: seq<Field>, k: string): seq<Field>
  {
    if fields == [] then []
    else if fields[0].key == k then Omit(fields[1..], k)
    else [fields[0]] + Omit(fields[1..], k)
  }

  /** Writing a property keeps the names in place and adds a new one last. */
  lemma {:induction false} PutKeys(fields: seq<Field>, k: string, v: JsValue)
    ensures Keys(Put(fields, k, v)) == if k in Keys(fields) then Keys(fields) else Keys(fields) + [k]
  {
    if fields != [] {
      assert Keys(fields) == [fields[0].key] + Keys(fields[1..]);
      PutKeys(fields[1..], k, v);
      if fields[0].key != k {
        assert Keys(Put(fields, k, v)) == [fields[0].key] + Keys(Put(fields[1..], k, v));
      }
    }
  }

  /** Dropping a property removes its name and adds nothing. */
  lemma {:induction false} OmitKeys(fields: seq<Field>, k: string)
    ensures k !in Keys(Omit(fields, k))
    ensures forall f | f in Omit(fields, k) :: f in fields
  {
    if fields != [] {
      OmitKeys(fields[1..], k);
      if fields[0].key != k {
        assert Keys(Omit(fields, k)) == [fields[0].key] + Keys(Omit(fields[1..], k));
      }
    }
  }

  /** Reading back a property just written gives the written value; others are untouched. */
  lemma {:induction false} LookupPut(fields: seq<Field>, k: string, v: JsValue, k': string)
    ensures Lookup(Put(fields, k, v), k') == if k' == k then v else Lookup(fields, k')
  {
    if fields != [] && fields[0].key != k {
      LookupPut(fields[1..], k, v, k');
    }
  }

  /** Dropping a property that was just added restores the original object. */
  lemma {:induction false} OmitPut(fields: seq<Field>, k: string, v: JsValue)
    requires k !in Keys(fields)
    ensures Omit(Put(fields, k, v), k) == fields
  {
    if fields != [] {
      assert fields[0].key == Keys(fields)[0];
      assert Keys(fields[1..]) == Keys(fields)[1..];
      OmitPut(fields[1..], k, v);
    }
  }

  /** Dropping a property leaves every other property's value alone. */
  lemma {:induction false} LookupOmit(fields: seq<Field>, k: string, k': string)
    requires k' != k
    ensures Lookup(Omit(fields, k), k') == Lookup(fields, k')
  {
    if fields != [] {
      LookupOmit(fields[1..], k, k');
    }
  }
}
