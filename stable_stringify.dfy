/**
 * `stableStringify` (baseline/core/stableStringify.js): deterministic JSON text with
 * object keys sorted and array order kept, refusing any object reached twice.
 *
 * The serializer is modelled in two steps that together do what the one recursive
 * `serialize` does:
 *  - `Canonical` applies each object's `toJSON` result, drops the properties whose
 *    value is `undefined`, a function or a symbol, and sorts the rest by key;
 *  - `Emit` walks the canonical value in output order, threading the `seen` set of
 *    object identities, and fails on the first object already in it.
 * `Render` is the text of a canonical value with no identity check at all; `Emit`
 * succeeds exactly when no object is reached twice, and then produces `Render`'s text.
 */
module StableStringify {
  import opened Wrappers
  import opened Strings
  import opened Sorting
  import opened Seqs
  import opened Js

  const CircularMessage := "Cannot stableStringify circular references"

  // ----- JSON text of strings (`JSON.stringify` on a string) -----

  function HexDigit(d: nat): char
    requires d < 16
  {
    if d < 10 then ('0' as int + d) as char else ('a' as int + d - 10) as char
  }

  /** One character of a JSON string literal: the two-character escapes, `\u00XX` for the
      other control characters, everything else as itself. */
  function EscapeChar(c: char): string
  {
    if c == '"' then "\\\""
    else if c == '\\' then "\\\\"
    else if c == '\U{8}' then "\\b"
    else if c == '\U{C}' then "\\f"
    else if c == '\n' then "\\n"
    else if c == '\r' then "\\r"
    else if c == '\t' then "\\t"
    else if c < ' ' then "\\u00" + [HexDigit(c as int / 16), HexDigit(c as int % 16)]
    else [c]
  }

  function Escape(s: string): string
  {
    if s == [] then [] else EscapeChar(s[0]) + Escape(s[1..])
  }

  /** `JSON.stringify(s)` for a string `s`. */
  function Quote(s: string): string
  {
    "\"" + Escape(s) + "\""
  }

  /** The single-character escapes a JSON string literal may contain, and what they stand for. */
  const SimpleEscapes: map<char, char> :=
    map['"' := '"', '\\' := '\\', '/' := '/', 'b' := '\U{8}', 'f' := '\U{C}',
        'n' := '\n', 'r' := '\r', 't' := '\t']

  predicate IsHex(c: char)
  {
    '0' <= c <= '9' || 'a' <= c <= 'f' || 'A' <= c <= 'F'
  }

  function HexValue(c: char): (v: nat)
    requires IsHex(c)
    ensures v < 16
  {
    if '0' <= c <= '9' then c as int - '0' as int
    else if 'a' <= c <= 'f' then c as int - 'a' as int + 10
    else c as int - 'A' as int + 10
  }

  /** Reads the body of a JSON string literal (between the quotes) back into the string it
      denotes; `None` for a raw quote, a raw control character or a malformed escape. */
  function Unescape(t: string): Option<string>
    decreases |t|
  {
    if t == [] then Some([])
    else if t[0] == '\\' then
      if |t| >= 2 && t[1] in SimpleEscapes then Prepend(SimpleEscapes[t[1]], Unescape(t[2..]))
      else if |t| >= 6 && t[1] == 'u' && IsHex(t[2]) && IsHex(t[3]) && IsHex(t[4]) && IsHex(t[5]) then
        var code := CodeUnit(HexValue(t[2]), HexValue(t[3]), HexValue(t[4]), HexValue(t[5]));
        if 0xD800 <= code < 0xE000 then None else Prepend(code as char, Unescape(t[6..]))
      else None
    else if t[0] == '"' || t[0] < ' ' then None
    else Prepend(t[0], Unescape(t[1..]))
  }

  /** The 16-bit code unit written by four hexadecimal digits. */
  function CodeUnit(d3: nat, d2: nat, d1: nat, d0: nat): (code: nat)
    requires d3 < 16 && d2 < 16 && d1 < 16 && d0 < 16
    ensures code < 0x10000
  {
    ((d3 * 16 + d2) * 16 + d1) * 16 + d0
  }

  lemma UnescapeChar(c: char, rest: string)
    ensures Unescape(EscapeChar(c) + rest) == Prepend(c, Unescape(rest))
  {
    var t := EscapeChar(c) + rest;
    if c in {'"', '\\', '\U{8}', '\U{C}', '\n', '\r', '\t'} {
      assert t[2..] == rest;
    } else if c < ' ' {
      var hi, lo := c as int / 16, c as int % 16;
      assert t[1] == 'u' && t[2] == '0' && t[3] == '0' && t[4] == HexDigit(hi) && t[5] == HexDigit(lo);
      assert HexValue(HexDigit(hi)) == hi && HexValue(HexDigit(lo)) == lo;
      assert t[6..] == rest;
    } else {
      assert t[1..] == rest;
    }
  }

  /** Text without quotes, backslashes or control characters is written as itself. */
  lemma {:induction false} EscapePlain(s: string)
    requires forall i | 0 <= i < |s| :: s[i] >= ' ' && s[i] != '"' && s[i] != '\\'
    ensures Escape(s) == s
  {
    if s != [] {
      EscapePlain(s[1..]);
      assert [s[0]] + s[1..] == s;
    }
  }

  /** Reading a quoted string's body back gives the original string. */
  lemma {:induction false} UnescapeEscape(s: string)
    ensures Unescape(Escape(s)) == Some(s)
  {
    if s != [] {
      UnescapeChar(s[0], Escape(s[1..]));
      UnescapeEscape(s[1..]);
      assert [s[0]] + s[1..] == s;
    }
  }

  // ----- The canonical value: hooks applied, unserializable properties dropped, keys sorted -----

  /** Property values the serializer keeps (the `filter` of `Object.entries`). */
  predicate Serializable(v: JsValue)
  {
    !(v.Undefined? || v.Function? || v.Symbol?)
  }

  predicate KeptField(f: Field)
  {
    Serializable(f.value)
  }

  /** The object's `toJSON` gave something other than the object itself (`jsonVal !== val`). */
  predicate ForeignHook(id: nat, hook: Option<JsValue>)
  {
    hook.Some? && !(hook.value.Object? && hook.value.id == id)
  }

  function Canonical(v: JsValue): (c: JsValue)
    ensures Serializable(c) == Serializable(v)
    ensures c.Object? == v.Object? && (c.Object? ==> c.id == v.id && !ForeignHook(c.id, c.hook) == c.hook.None?)
    decreases v
  {
    match v
    case Array(items) => Array(CanonicalItems(items))
    case Object(id, fields, hook) =>
      if ForeignHook(id, hook) then Object(id, [], Some(Canonical(hook.value)))
      else Object(id, CanonicalFields(CanonicalValues(fields)), None)
    case _ => v
  }

  function CanonicalItems(items: seq<JsValue>): (r: seq<JsValue>)
    ensures |r| == |items| && forall i | 0 <= i < |items| :: r[i] == Canonical(items[i])
    decreases items
  {
    if items == [] then [] else [Canonical(items[0])] + CanonicalItems(items[1..])
  }

  function CanonicalField(f: Field): Field
    decreases f
  {
    Field(f.key, Canonical(f.value))
  }

  /** Every property with its value made canonical, keys and order unchanged. */
  function CanonicalValues(fields: seq<Field>): (r: seq<Field>)
    ensures |r| == |fields| && forall i | 0 <= i < |fields| :: r[i] == CanonicalField(fields[i])
    decreases fields
  {
    if fields == [] then [] else [CanonicalField(fields[0])] + CanonicalValues(fields[1..])
  }

  /** The kept properties of an object whose values are already canonical, sorted by key. */
  function CanonicalFields(fields: seq<Field>): seq<Field>
  {
    SortBy(Filter(fields, KeptField), Key)
  }

  // ----- The objects a walk reaches, and the text it produces -----

  /** The identities of the objects the serializer visits, with repetitions, in the order
      `serialize` reaches them. */
  ghost function Reached(v: JsValue): multiset<nat>
    decreases v
  {
    match v
    case Array(items) => ReachedItems(items)
    case Object(id, fields, hook) =>
      multiset{id} + if ForeignHook(id, hook) then Reached(hook.value) else ReachedFields(fields)
    case _ => multiset{}
  }

  ghost function ReachedItems(items: seq<JsValue>): multiset<nat>
    decreases items
  {
    if items == [] then multiset{} else Reached(items[0]) + ReachedItems(items[1..])
  }

  ghost function ReachedFields(fields: seq<Field>): multiset<nat>
    decreases fields
  {
    if fields == [] then multiset{} else Reached(fields[0].value) + ReachedFields(fields[1..])
  }

  /** No identity occurs twice, and none is already in `seen`. */
  ghost predicate Fresh(m: multiset<nat>, seen: set<nat>)
  {
    (forall x | x in m :: x !in seen) && (forall x :: m[x] <= 1)
  }

  ghost function SetOf(m: multiset<nat>): set<nat>
  {
    set x | x in m
  }

  function PrimitiveText(v: JsValue): string
    requires !v.Array? && !v.Object?
  {
    match v
    case Bool(b) => if b then "true" else "false"
    case Num(n) => IntText(n)
    case BigInt(n) => IntText(n)
    case Str(s) => Quote(s)
    case _ => "null"
  }

  /** The JSON text of a value, by structure alone: arrays in order, objects in the order of
      their properties, the `toJSON` result in place of an object that has one. */
  function Render(v: JsValue): string
    decreases v
  {
    match v
    case Array(items) => "[" + Join(RenderItems(items), ",") + "]"
    case Object(id, fields, hook) =>
      if ForeignHook(id, hook) then Render(hook.value) else "{" + Join(RenderFields(fields), ",") + "}"
    case _ => PrimitiveText(v)
  }

  function RenderItems(items: seq<JsValue>): (r: seq<string>)
    ensures |r| == |items| && forall i | 0 <= i < |items| :: r[i] == Render(items[i])
    decreases items
  {
    if items == [] then [] else [Render(items[0])] + RenderItems(items[1..])
  }

  function RenderFields(fields: seq<Field>): (r: seq<string>)
    ensures |r| == |fields|
    ensures forall i | 0 <= i < |fields| :: r[i] == Quote(fields[i].key) + ":" + Render(fields[i].value)
    decreases fields
  {
    if fields == [] then []
    else [Quote(fields[0].key) + ":" + Render(fields[0].value)] + RenderFields(fields[1..])
  }

  // ----- The walk with the `seen` set -----

  datatype Emitted = Emitted(text: string, seen: set<nat>)

  datatype EmittedList = EmittedList(texts: seq<string>, seen: set<nat>)

  lemma FreshConcat(a: multiset<nat>, b: multiset<nat>, seen: set<nat>)
    ensures Fresh(a + b, seen) <==> Fresh(a, seen) && Fresh(b, seen + SetOf(a))
    ensures SetOf(a + b) == SetOf(a) + SetOf(b)
  {
    if Fresh(a + b, seen) {
      forall x ensures a[x] <= 1 && b[x] <= 1 {
        assert (a + b)[x] == a[x] + b[x];
      }
      forall x | x in b ensures x !in seen + SetOf(a) {
        assert (a + b)[x] == a[x] + b[x];
      }
    }
    if Fresh(a, seen) && Fresh(b, seen + SetOf(a)) {
      forall x ensures (a + b)[x] <= 1 {
        assert (a + b)[x] == a[x] + b[x];
        if a[x] > 0 { assert x in SetOf(a); }
      }
    }
  }

  lemma SetOfSingleton(id: nat)
    ensures SetOf(multiset{id}) == {id}
  {
  }

  /** `serialize` with its `seen` set: succeeds exactly when no object is reached twice or was
      seen before, then yields `Render`'s text and records every object it reached. */
  function Emit(v: JsValue, seen: set<nat>): (r: Result<Emitted, string>)
    ensures r.Success? <==> Fresh(Reached(v), seen)
    ensures r.Success? ==> r.value == Emitted(Render(v), seen + SetOf(Reached(v)))
    ensures r.Failure? ==> r.error == CircularMessage
    decreases v, 1
  {
    match v
    case Array(items) =>
      var l := EmitItems(items, seen);
      if l.Failure? then Failure(l.error)
      else Success(Emitted("[" + Join(l.value.texts, ",") + "]", l.value.seen))
    case Object(id, fields, hook) => EmitObject(id, fields, hook, seen)
    case _ =>
      assert SetOf(multiset{}) == {};
      Success(Emitted(PrimitiveText(v), seen))
  }

  /** `serialize` on an object: a repeat throws; otherwise the object is recorded and its
      `toJSON` result, or its properties, are written. */
  function EmitObject(id: nat, fields: seq<Field>, hook: Option<JsValue>, seen: set<nat>): (r: Result<Emitted, string>)
    ensures r.Success? <==> Fresh(Reached(Object(id, fields, hook)), seen)
    ensures r.Success? ==> r.value == Emitted(Render(Object(id, fields, hook)), seen + SetOf(Reached(Object(id, fields, hook))))
    ensures r.Failure? ==> r.error == CircularMessage
    decreases Object(id, fields, hook), 0
  {
    if id in seen then Failure(CircularMessage)
    else if ForeignHook(id, hook) then
      FreshConcat(multiset{id}, Reached(hook.value), seen);
      SetOfSingleton(id);
      Emit(hook.value, seen + {id})
    else
      FreshConcat(multiset{id}, ReachedFields(fields), seen);
      SetOfSingleton(id);
      var l := EmitFields(fields, seen + {id});
      if l.Failure? then Failure(l.error)
      else Success(Emitted("{" + Join(l.value.texts, ",") + "}", l.value.seen))
  }

  function EmitItems(items: seq<JsValue>, seen: set<nat>): (r: Result<EmittedList, string>)
    ensures r.Success? <==> Fresh(ReachedItems(items), seen)
    ensures r.Success? ==> r.value == EmittedList(RenderItems(items), seen + SetOf(ReachedItems(items)))
    ensures r.Failure? ==> r.error == CircularMessage
    decreases items
  {
    if items == [] then
      assert SetOf(multiset{}) == {};
      Success(EmittedList([], seen))
    else
      FreshConcat(Reached(items[0]), ReachedItems(items[1..]), seen);
      var h := Emit(items[0], seen);
      if h.Failure? then Failure(h.error)
      else
        var t := EmitItems(items[1..], h.value.seen);
        if t.Failure? then Failure(t.error)
        else Success(EmittedList([h.value.text] + t.value.texts, t.value.seen))
  }

  function EmitFields(fields: seq<Field>, seen: set<nat>): (r: Result<EmittedList, string>)
    ensures r.Success? <==> Fresh(ReachedFields(fields), seen)
    ensures r.Success? ==> r.value == EmittedList(RenderFields(fields), seen + SetOf(ReachedFields(fields)))
    ensures r.Failure? ==> r.error == CircularMessage
    decreases fields
  {
    if fields == [] then
      assert SetOf(multiset{}) == {};
      Success(EmittedList([], seen))
    else
      FreshConcat(Reached(fields[0].value), ReachedFields(fields[1..]), seen);
      var h := Emit(fields[0].value, seen);
      if h.Failure? then Failure(h.error)
      else
        var t := EmitFields(fields[1..], h.value.seen);
        if t.Failure? then Failure(t.error)
        else Success(EmittedList([Quote(fields[0].key) + ":" + h.value.text] + t.value.texts, t.value.seen))
  }

  /** `stableStringify(value)`: the rendering of the canonical value, or the circular-reference
      error when the walk reaches some object twice. */
  function StableStringify(value: JsValue): (r: Result<string, string>)
    ensures r.Success? <==> Fresh(Reached(Canonical(value)), {})
    ensures r.Success? ==> r.value == Render(Canonical(value))
    ensures r.Failure? ==> r.error == CircularMessage
  {
    var e := Emit(Canonical(value), {});
    if e.Success? then Success(e.value.text) else Failure(e.error)
  }

  // ----- What the serializer promises -----

  /** `null`, `undefined`, functions, symbols (and non-numbers) all give `null`. */
  lemma UnsupportedIsNull(v: JsValue)
    requires v.Null? || v.Undefined? || v.Function? || v.Symbol? || v.NaN?
    ensures StableStringify(v) == Success("null")
  {
  }

  /** 2^53: up to this magnitude every integer is a double, so `Number(val)` keeps it and
      `JSON.stringify` writes its exact digits. */
  const ExactIntegerLimit: int := 9007199254740992

  /** A bigint is written as the number with the same value. */
  lemma BigIntAsNumber(n: int)
    requires -ExactIntegerLimit <= n <= ExactIntegerLimit
    ensures StableStringify(BigInt(n)) == StableStringify(Num(n)) == Success(IntText(n))
  {
  }

  /** A string is written as a quoted JSON string literal whose body reads back as the string. */
  lemma StringRoundTrip(s: string)
    ensures StableStringify(Str(s)).Success?
    ensures var t := StableStringify(Str(s)).value;
      |t| >= 2 && t[0] == '"' && t[|t| - 1] == '"' && Unescape(t[1..|t| - 1]) == Some(s)
  {
    var t := StableStringify(Str(s)).value;
    assert t == "\"" + Escape(s) + "\"";
    assert t[1..|t| - 1] == Escape(s);
    UnescapeEscape(s);
  }

  lemma {:induction false} ReachedItemsEmpty(items: seq<JsValue>)
    requires forall i | 0 <= i < |items| :: Reached(items[i]) == multiset{}
    ensures ReachedItems(items) == multiset{}
  {
    if items != [] {
      ReachedItemsEmpty(items[1..]);
    }
  }

  lemma {:induction false} ReachedItemsContains(items: seq<JsValue>, i: int)
    requires 0 <= i < |items|
    ensures Reached(items[i]) <= ReachedItems(items)
  {
    if i > 0 {
      ReachedItemsContains(items[1..], i - 1);
    }
  }

  lemma {:induction false} ReachedItemsContainsTwo(items: seq<JsValue>, i: int, j: int)
    requires 0 <= i < j < |items|
    ensures Reached(items[i]) + Reached(items[j]) <= ReachedItems(items)
  {
    assert ReachedItems(items) == Reached(items[0]) + ReachedItems(items[1..]);
    assert items[1..][j - 1] == items[j];
    if i > 0 {
      assert items[1..][i - 1] == items[i];
      ReachedItemsContainsTwo(items[1..], i - 1, j - 1);
      MultisetGrow(Reached(items[i]) + Reached(items[j]), Reached(items[0]), ReachedItems(items[1..]));
    } else {
      ReachedItemsContains(items[1..], j - 1);
      MultisetAddLeft(Reached(items[0]), Reached(items[j]), ReachedItems(items[1..]));
    }
  }

  lemma MultisetGrow(x: multiset<nat>, y: multiset<nat>, z: multiset<nat>)
    requires x <= z
    ensures x <= y + z
  {
    forall e ensures x[e] <= (y + z)[e] {
      assert x[e] <= z[e];
    }
  }

  lemma MultisetAddLeft(y: multiset<nat>, x: multiset<nat>, z: multiset<nat>)
    requires x <= z
    ensures y + x <= y + z
  {
    forall e ensures (y + x)[e] <= (y + z)[e] {
      assert x[e] <= z[e];
    }
  }

  lemma {:induction false} ReachedFieldsContains(fields: seq<Field>, f: Field)
    requires f in fields
    ensures Reached(f.value) <= ReachedFields(fields)
  {
    if fields[0] != f {
      ReachedFieldsContains(fields[1..], f);
    }
  }

  lemma FreshSub(a: multiset<nat>, b: multiset<nat>, seen: set<nat>)
    requires a <= b && Fresh(b, seen)
    ensures Fresh(a, seen)
  {
  }

  /** Whenever the array serializes, so does every element. */
  lemma ArrayElementsSucceed(items: seq<JsValue>, i: int)
    requires 0 <= i < |items| && StableStringify(Array(items)).Success?
    ensures StableStringify(items[i]).Success?
  {
    var c := Canonical(Array(items));
    ReachedItemsContains(c.items, i);
    FreshSub(Reached(c.items[i]), ReachedItems(c.items), {});
  }

  /** Arrays keep element order: the text is the elements' own texts joined by commas. */
  lemma ArrayKeepsOrder(items: seq<JsValue>, texts: seq<string>)
    requires |texts| == |items|
    requires forall i | 0 <= i < |items| :: StableStringify(items[i]) == Success(texts[i])
    ensures StableStringify(Array(items)).Success? ==>
      StableStringify(Array(items)) == Success("[" + Join(texts, ",") + "]")
  {
    forall i | 0 <= i < |items| ensures Render(Canonical(items[i])) == texts[i] {
      StringifiedIsRendered(items[i], texts[i]);
    }
    RenderedItems(items, texts);
    var c := Canonical(Array(items));
    assert c == Array(CanonicalItems(items));
  }

  lemma StringifiedIsRendered(v: JsValue, t: string)
    requires StableStringify(v) == Success(t)
    ensures Render(Canonical(v)) == t
  {
  }

  lemma RenderedItems(items: seq<JsValue>, texts: seq<string>)
    requires |texts| == |items|
    requires forall i | 0 <= i < |items| :: Render(Canonical(items[i])) == texts[i]
    ensures Render(Array(CanonicalItems(items))) == "[" + Join(texts, ",") + "]"
  {
    assert RenderItems(CanonicalItems(items)) == texts;
  }

  /** An array whose elements reach no object always serializes. */
  lemma ObjectFreeArraySucceeds(items: seq<JsValue>)
    requires forall i | 0 <= i < |items| :: Reached(Canonical(items[i])) == multiset{}
    ensures StableStringify(Array(items)).Success?
  {
    var c := Canonical(Array(items));
    assert c == Array(CanonicalItems(items));
    ReachedItemsEmpty(c.items);
    assert Reached(c) == multiset{};
  }

  lemma CanonicalValuesKeys(fields: seq<Field>)
    requires WellKeyed(fields)
    ensures UniqueKeys(CanonicalValues(fields), Key)
    ensures UniqueKeys(Filter(CanonicalValues(fields), KeptField), Key)
  {
    var m := CanonicalValues(fields);
    forall i, j | 0 <= i < j < |m| ensures Key(m[i]) != Key(m[j]) {
      assert Key(m[i]) == Key(fields[i]) && Key(m[j]) == Key(fields[j]);
    }
    UniqueKeysFilter(m, KeptField, Key);
  }

  /** An object without a `toJSON` of its own is written with its properties in strictly
      ascending key order. */
  lemma ObjectKeysAscending(id: nat, fields: seq<Field>, hook: Option<JsValue>)
    requires WellKeyed(fields) && !ForeignHook(id, hook)
    ensures Canonical(Object(id, fields, hook)).hook.None?
    ensures StrictlySortedBy(Canonical(Object(id, fields, hook)).fields, Key)
  {
    var kept := Filter(CanonicalValues(fields), KeptField);
    CanonicalValuesKeys(fields);
    UniqueKeysPermutation(kept, SortBy(kept, Key), Key);
    SortedUniqueIsStrict(SortBy(kept, Key), Key);
  }

  /** The properties written are exactly those whose values are serializable: the others are
      dropped, not written as `null`. */
  lemma ObjectEntriesKept(id: nat, fields: seq<Field>, hook: Option<JsValue>)
    requires !ForeignHook(id, hook)
    ensures forall g | g in Canonical(Object(id, fields, hook)).fields ::
      Serializable(g.value) && exists f | f in fields :: g == CanonicalField(f)
    ensures forall f | f in fields && Serializable(f.value) ::
      CanonicalField(f) in Canonical(Object(id, fields, hook)).fields
  {
    assert Canonical(Object(id, fields, hook)).fields == CanonicalFields(CanonicalValues(fields));
    KeptOnlySerializable(fields);
    KeptAllSerializable(fields);
  }

  lemma KeptOnlySerializable(fields: seq<Field>)
    ensures forall g | g in CanonicalFields(CanonicalValues(fields)) ::
      Serializable(g.value) && exists f | f in fields :: g == CanonicalField(f)
  {
    var m := CanonicalValues(fields);
    var kept := Filter(m, KeptField);
    forall g | g in SortBy(kept, Key) ensures Serializable(g.value) && exists f | f in fields :: g == CanonicalField(f) {
      assert g in multiset(kept);
      assert g in kept;
      var i :| 0 <= i < |m| && m[i] == g;
      assert fields[i] in fields;
    }
  }

  lemma KeptAllSerializable(fields: seq<Field>)
    ensures forall f | f in fields && Serializable(f.value) :: CanonicalField(f) in CanonicalFields(CanonicalValues(fields))
  {
    var m := CanonicalValues(fields);
    var kept := Filter(m, KeptField);
    forall f | f in fields && Serializable(f.value) ensures CanonicalField(f) in SortBy(kept, Key) {
      var i :| 0 <= i < |fields| && fields[i] == f;
      assert m[i] == CanonicalField(f);
      assert CanonicalField(f) in kept;
      assert CanonicalField(f) in multiset(kept);
    }
  }

  /** Two objects with the same properties inserted in different orders have the same canonical
      properties, hence the same text; the same object gives the same result outright. */
  lemma KeyOrderIndependent(id1: nat, id2: nat, f1: seq<Field>, f2: seq<Field>)
    requires WellKeyed(f1) && multiset(f1) == multiset(f2)
    ensures Canonical(Object(id1, f1, None)).fields == Canonical(Object(id2, f2, None)).fields
    ensures Render(Canonical(Object(id1, f1, None))) == Render(Canonical(Object(id2, f2, None)))
    ensures StableStringify(Object(id1, f1, None)).Success? && StableStringify(Object(id2, f2, None)).Success? ==>
      StableStringify(Object(id1, f1, None)) == StableStringify(Object(id2, f2, None))
    ensures id1 == id2 ==> StableStringify(Object(id1, f1, None)) == StableStringify(Object(id2, f2, None))
  {
    SameCanonicalFields(f1, f2);
    var c1, c2 := Canonical(Object(id1, f1, None)), Canonical(Object(id2, f2, None));
    assert c1 == Object(id1, CanonicalFields(CanonicalValues(f1)), None);
    assert c2 == Object(id2, CanonicalFields(CanonicalValues(f2)), None);
    assert Render(c1) == "{" + Join(RenderFields(c1.fields), ",") + "}";
    assert Render(c2) == "{" + Join(RenderFields(c2.fields), ",") + "}";
  }

  lemma SameCanonicalFields(f1: seq<Field>, f2: seq<Field>)
    requires WellKeyed(f1) && multiset(f1) == multiset(f2)
    ensures CanonicalFields(CanonicalValues(f1)) == CanonicalFields(CanonicalValues(f2))
  {
    var m1, m2 := CanonicalValues(f1), CanonicalValues(f2);
    assert m1 == MapSeq(f1, CanonicalField);
    assert m2 == MapSeq(f2, CanonicalField);
    MapPermutation(f1, f2, CanonicalField);
    FilterPermutation(m1, m2, KeptField);
    CanonicalValuesKeys(f1);
    SortByDeterminedByElements(Filter(m1, KeptField), Filter(m2, KeptField), Key);
  }

  lemma FreshWithOne(id: nat, m: multiset<nat>)
    ensures Fresh(multiset{id} + m, {}) <==> Fresh(m, {}) && id !in m
  {
    FreshConcat(multiset{id}, m, {});
    SetOfSingleton(id);
  }

  /** An object whose `toJSON` returns something else is written as that result, and fails
      only if the result fails or reaches the object itself again. */
  lemma ToJsonResultSerialized(id: nat, fields: seq<Field>, h: JsValue)
    requires ForeignHook(id, Some(h))
    ensures Render(Canonical(Object(id, fields, Some(h)))) == Render(Canonical(h))
    ensures StableStringify(Object(id, fields, Some(h))).Success? <==>
      StableStringify(h).Success? && id !in Reached(Canonical(h))
    ensures StableStringify(Object(id, fields, Some(h))).Success? ==>
      StableStringify(Object(id, fields, Some(h))) == StableStringify(h)
  {
    FreshWithOne(id, Reached(Canonical(h)));
  }

  /** A `toJSON` that returns the object itself changes nothing. */
  lemma ToJsonReturningItself(id: nat, fields: seq<Field>, g: seq<Field>, k: Option<JsValue>)
    ensures StableStringify(Object(id, fields, Some(Object(id, g, k)))) == StableStringify(Object(id, fields, None))
  {
  }

  /** Reaching one object from two places of an array throws, even with no cycle: `seen` is
      never cleared. */
  lemma SharedReferenceThrows(items: seq<JsValue>, i: int, j: int)
    requires 0 <= i < j < |items| && items[i].Object? && items[j].Object? && items[i].id == items[j].id
    ensures StableStringify(Array(items)) == Failure(CircularMessage)
  {
    var c := Canonical(Array(items));
    var id := items[i].id;
    ReachedItemsContainsTwo(c.items, i, j);
    assert c.items[i] == Canonical(items[i]) && c.items[j] == Canonical(items[j]);
    assert Reached(c.items[i])[id] >= 1 && Reached(c.items[j])[id] >= 1;
    assert ReachedItems(c.items)[id] >= 2;
  }

  /** An object holding a reference to itself throws. */
  lemma SelfReferenceThrows(id: nat, fields: seq<Field>, k: string, inner: seq<Field>, h: Option<JsValue>)
    requires Field(k, Object(id, inner, h)) in fields
    ensures StableStringify(Object(id, fields, None)) == Failure(CircularMessage)
  {
    var f := Field(k, Object(id, inner, h));
    var c := Canonical(Object(id, fields, None));
    CanonicalKeepsObjectField(id, fields, f);
    ReachedTwice(c, CanonicalField(f));
  }

  /** A property holding an object survives canonicalisation, its value made canonical. */
  lemma CanonicalKeepsObjectField(id: nat, fields: seq<Field>, f: Field)
    requires f in fields && f.value.Object?
    ensures CanonicalField(f) in Canonical(Object(id, fields, None)).fields
  {
    var m := CanonicalValues(fields);
    var g := CanonicalField(f);
    var i :| 0 <= i < |fields| && fields[i] == f;
    assert m[i] == g;
    assert KeptField(g) by {
      assert Serializable(g.value) == Serializable(f.value);
    }
    CanonicalHolds(id, fields, g);
  }

  lemma CanonicalHolds(id: nat, fields: seq<Field>, g: Field)
    requires g in CanonicalValues(fields) && KeptField(g)
    ensures g in Canonical(Object(id, fields, None)).fields
  {
    var kept := Filter(CanonicalValues(fields), KeptField);
    assert g in kept;
    SortedHolds(g, kept);
    assert !ForeignHook(id, None);
  }

  lemma SortedHolds(g: Field, s: seq<Field>)
    requires g in s
    ensures g in SortBy(s, Key)
  {
    assert g in multiset(s);
  }

  /** An object one of whose properties holds the object itself is reached twice. */
  lemma ReachedTwice(c: JsValue, g: Field)
    requires c.Object? && !ForeignHook(c.id, c.hook)
    requires g in c.fields && g.value.Object? && g.value.id == c.id
    ensures Reached(c)[c.id] >= 2
  {
    ReachedFieldsContains(c.fields, g);
    var rest := ReachedFields(c.fields);
    ReachedOwnId(g.value);
    assert Reached(g.value)[c.id] <= rest[c.id];
    assert Reached(c) == multiset{c.id} + rest;
  }

  lemma ReachedOwnId(v: JsValue)
    requires v.Object?
    ensures Reached(v)[v.id] >= 1
  {
  }

  /** The serializer's test case: nested arrays keep their order (`{items: [3, 2, 1]}`). */
  lemma ItemsExample()
    ensures StableStringify(Object(0, [Field("items", Array([Num(3), Num(2), Num(1)]))], None))
      == Success("{\"items\":[3,2,1]}")
  {
    ItemsObjectShape();
    ItemsObjectText();
  }

  lemma ItemsObjectShape()
    ensures var o := Object(0, [Field("items", Array([Num(3), Num(2), Num(1)]))], None);
      Canonical(o) == o && Fresh(Reached(o), {})
  {
    ItemsArrayPart();
    SingleField(0, "items", Array([Num(3), Num(2), Num(1)]));
  }

  /** An object with one serializable, already canonical property is its own canonical form. */
  lemma SingleField(id: nat, k: string, v: JsValue)
    requires Canonical(v) == v && Serializable(v)
    ensures Canonical(Object(id, [Field(k, v)], None)) == Object(id, [Field(k, v)], None)
    ensures Reached(Object(id, [Field(k, v)], None)) == multiset{id} + Reached(v)
  {
    SingleFieldKept(k, v);
    var f := [Field(k, v)];
    assert SortBy(f, Key) == f;
    assert ReachedFields(f) == Reached(v) by {
      assert f[1..] == [];
    }
  }

  lemma SingleFieldKept(k: string, v: JsValue)
    requires Canonical(v) == v && Serializable(v)
    ensures Filter(CanonicalValues([Field(k, v)]), KeptField) == [Field(k, v)]
  {
    var f := [Field(k, v)];
    assert f[1..] == [];
    assert CanonicalValues(f) == f;
  }

  lemma ItemsObjectText()
    ensures Render(Object(0, [Field("items", Array([Num(3), Num(2), Num(1)]))], None)) == "{\"items\":[3,2,1]}"
  {
    var a := Array([Num(3), Num(2), Num(1)]);
    SingleFieldText(0, "items", a);
    ItemsArrayText();
    QuoteItems();
    ItemsExampleText();
  }

  lemma QuoteItems()
    ensures Quote("items") == "\"" + "items" + "\""
  {
    EscapePlain("items");
  }

  /** An object with one property is written as `{"key":value}`. */
  lemma SingleFieldText(id: nat, k: string, v: JsValue)
    ensures Render(Object(id, [Field(k, v)], None)) == "{" + (Quote(k) + ":" + Render(v)) + "}"
  {
    var entry := Quote(k) + ":" + Render(v);
    assert RenderFields([Field(k, v)]) == [entry];
    assert Join([entry], ",") == entry;
  }

  lemma ItemsArrayPart()
    ensures var a := Array([Num(3), Num(2), Num(1)]);
      Canonical(a) == a && ReachedItems(a.items) == multiset{} && Render(a) == "[3,2,1]"
  {
    ItemsArrayCanonical();
    ItemsArrayText();
  }

  lemma ItemsArrayCanonical()
    ensures var a := Array([Num(3), Num(2), Num(1)]);
      Canonical(a) == a && ReachedItems(a.items) == multiset{}
  {
    var a := Array([Num(3), Num(2), Num(1)]);
    assert CanonicalItems(a.items) == a.items;
    assert a.items[1..][1..][1..] == [];
  }

  lemma ItemsArrayText()
    ensures Render(Array([Num(3), Num(2), Num(1)])) == "[3,2,1]"
  {
    var a := Array([Num(3), Num(2), Num(1)]);
    assert IntText(3) == "3" && IntText(2) == "2" && IntText(1) == "1";
    assert RenderItems(a.items) == ["3", "2", "1"];
    assert Join(["3", "2", "1"], ",") == "3,2,1";
  }

  lemma ItemsExampleText()
    ensures "{" + ("\"" + "items" + "\"" + ":" + "[3,2,1]") + "}" == "{\"items\":[3,2,1]}"
  {
  }

  /** The same array value twice is fine: arrays are never recorded in `seen`. */
  lemma RepeatedArrayExample()
    ensures StableStringify(Array([Array([Num(1)]), Array([Num(1)])])) == Success("[[1],[1]]")
  {
    var outer := Array([Array([Num(1)]), Array([Num(1)])]);
    RepeatedArrayCanonical();
    RepeatedArrayText();
    assert Fresh(multiset{}, {});
    assert StableStringify(outer).Success?;
  }

  lemma RepeatedArrayCanonical()
    ensures var outer := Array([Array([Num(1)]), Array([Num(1)])]);
      Canonical(outer) == outer && Reached(outer) == multiset{}
  {
    var inner := Array([Num(1)]);
    var outer := Array([inner, inner]);
    assert CanonicalItems(inner.items) == inner.items;
    assert Canonical(inner) == inner;
    assert CanonicalItems(outer.items) == outer.items;
    assert ReachedItems(inner.items) == multiset{};
    assert ReachedItems(outer.items[1..]) == multiset{};
    assert ReachedItems(outer.items) == multiset{};
  }

  lemma RepeatedArrayText()
    ensures Render(Array([Array([Num(1)]), Array([Num(1)])])) == "[[1],[1]]"
  {
    var inner := Array([Num(1)]);
    var outer := Array([inner, inner]);
    assert IntText(1) == "1";
    assert Render(inner) == "[1]";
    assert RenderItems(outer.items) == ["[1]", "[1]"];
    JoinTwo("[1]", "[1]", ",");
  }

  /** An object with two serializable, already canonical properties: sorting puts the smaller
      key first. */
  lemma TwoFields(id: nat, k1: string, v1: JsValue, k2: string, v2: JsValue)
    requires Canonical(v1) == v1 && Serializable(v1) && Canonical(v2) == v2 && Serializable(v2)
    requires k1 != k2
    ensures Canonical(Object(id, [Field(k1, v1), Field(k2, v2)], None)) ==
      Object(id, if Less(k1, k2) then [Field(k1, v1), Field(k2, v2)] else [Field(k2, v2), Field(k1, v1)], None)
  {
    var f := [Field(k1, v1), Field(k2, v2)];
    assert f[0].value == v1 && f[1].value == v2;
    TwoFieldsCanonical(id, f);
    TwoFieldsSorted(Field(k1, v1), Field(k2, v2));
  }

  lemma TwoFieldsCanonical(id: nat, f: seq<Field>)
    requires |f| == 2 && forall i | 0 <= i < 2 :: Canonical(f[i].value) == f[i].value && Serializable(f[i].value)
    ensures Canonical(Object(id, f, None)) == Object(id, SortBy(f, Key), None)
  {
    TwoFieldsKept(f);
  }

  lemma TwoFieldsKept(f: seq<Field>)
    requires |f| == 2 && forall i | 0 <= i < 2 :: Canonical(f[i].value) == f[i].value && Serializable(f[i].value)
    ensures Filter(CanonicalValues(f), KeptField) == f
  {
    assert CanonicalValues(f) == f;
    assert f[1..][1..] == [];
  }

  lemma TwoFieldsSorted(a: Field, b: Field)
    requires a.key != b.key
    ensures SortBy([a, b], Key) == if Less(a.key, b.key) then [a, b] else [b, a]
  {
    assert [a, b][..1] == [a] && [a][..0] == [];
    assert SortBy([a], Key) == [a];
    assert SortBy([a, b], Key) == Insert(b, [a], Key);
    LessTotal(a.key, b.key);
    if Less(a.key, b.key) {
      LessAsymmetric(a.key, b.key);
      assert Insert(b, [a], Key) == [a] + Insert(b, [], Key);
    }
  }

  lemma TwoFieldsObjectReached(id: nat, f: seq<Field>)
    requires |f| == 2
    ensures Reached(Object(id, f, None)) == multiset{id} + Reached(f[0].value) + Reached(f[1].value)
  {
    TwoFieldsReached(f);
  }

  lemma TwoFieldsReached(f: seq<Field>)
    requires |f| == 2
    ensures ReachedFields(f) == Reached(f[0].value) + Reached(f[1].value)
    ensures ReachedFields([f[1], f[0]]) == Reached(f[0].value) + Reached(f[1].value)
  {
    assert f[1..] == [f[1]] && [f[1]][1..] == [];
    assert ReachedFields([f[1]]) == Reached(f[1].value);
    assert [f[1], f[0]][1..] == [f[0]] && [f[0]][1..] == [];
    assert ReachedFields([f[0]]) == Reached(f[0].value);
  }

  /** The serializer's other test case: `{b: 1, a: {d: 2, c: 3}}` and `{a: {c: 3, d: 2}, b: 1}`,
      two unrelated objects, give the same text. */
  lemma NestedExample()
    ensures var sampleA := Object(1, [Field("b", Num(1)), Field("a", Object(2, [Field("d", Num(2)), Field("c", Num(3))], None))], None);
      var sampleB := Object(3, [Field("a", Object(4, [Field("c", Num(3)), Field("d", Num(2))], None)), Field("b", Num(1))], None);
      StableStringify(sampleA) == StableStringify(sampleB) == Success("{\"a\":{\"c\":3,\"d\":2},\"b\":1}")
  {
    var sortedInner := [Field("c", Num(3)), Field("d", Num(2))];
    var cA, cB := Object(2, sortedInner, None), Object(4, sortedInner, None);
    NestedCanonical(cA, cB);
    NestedFresh(1, 2);
    NestedFresh(3, 4);
    NestedExampleText(cA, cB);
  }

  lemma NestedCanonical(cA: JsValue, cB: JsValue)
    requires cA == Object(2, [Field("c", Num(3)), Field("d", Num(2))], None)
    requires cB == Object(4, [Field("c", Num(3)), Field("d", Num(2))], None)
    ensures Canonical(Object(1, [Field("b", Num(1)), Field("a", Object(2, [Field("d", Num(2)), Field("c", Num(3))], None))], None))
      == Object(1, [Field("a", cA), Field("b", Num(1))], None)
    ensures Canonical(Object(3, [Field("a", Object(4, [Field("c", Num(3)), Field("d", Num(2))], None)), Field("b", Num(1))], None))
      == Object(3, [Field("a", cB), Field("b", Num(1))], None)
  {
    NestedCanonicalA(cA);
    NestedCanonicalB(cB);
  }

  lemma NestedCanonicalA(cA: JsValue)
    requires cA == Object(2, [Field("c", Num(3)), Field("d", Num(2))], None)
    ensures Canonical(Object(1, [Field("b", Num(1)), Field("a", Object(2, [Field("d", Num(2)), Field("c", Num(3))], None))], None))
      == Object(1, [Field("a", cA), Field("b", Num(1))], None)
  {
    var given := Object(2, [Field("d", Num(2)), Field("c", Num(3))], None);
    NestedInnerCanonical(2, "d", Num(2), "c", Num(3));
    NestedInnerCanonical(2, "c", Num(3), "d", Num(2));
    CanonicalValuesPair("b", Num(1), "a", given);
    CanonicalValuesPair("b", Num(1), "a", cA);
    CanonicalSameValues(1, [Field("b", Num(1)), Field("a", given)], [Field("b", Num(1)), Field("a", cA)]);
    NestedOuterCanonical(1, "b", Num(1), "a", cA);
  }

  lemma CanonicalValuesPair(k1: string, v1: JsValue, k2: string, v2: JsValue)
    ensures CanonicalValues([Field(k1, v1), Field(k2, v2)]) == [Field(k1, Canonical(v1)), Field(k2, Canonical(v2))]
  {
  }

  /** Canonicalising an object only looks at its values' canonical forms. */
  lemma CanonicalSameValues(id: nat, f: seq<Field>, g: seq<Field>)
    requires CanonicalValues(f) == CanonicalValues(g)
    ensures Canonical(Object(id, f, None)) == Canonical(Object(id, g, None))
  {
  }

  lemma NestedCanonicalB(cB: JsValue)
    requires cB == Object(4, [Field("c", Num(3)), Field("d", Num(2))], None)
    ensures Canonical(Object(3, [Field("a", Object(4, [Field("c", Num(3)), Field("d", Num(2))], None)), Field("b", Num(1))], None))
      == Object(3, [Field("a", cB), Field("b", Num(1))], None)
  {
    NestedInnerCanonical(4, "c", Num(3), "d", Num(2));
    NestedOuterCanonical(3, "a", cB, "b", Num(1));
  }

  lemma NestedInnerCanonical(id: nat, k1: string, v1: JsValue, k2: string, v2: JsValue)
    requires [Field(k1, v1), Field(k2, v2)] in {[Field("d", Num(2)), Field("c", Num(3))], [Field("c", Num(3)), Field("d", Num(2))]}
    ensures Canonical(Object(id, [Field(k1, v1), Field(k2, v2)], None)) == Object(id, [Field("c", Num(3)), Field("d", Num(2))], None)
  {
    assert Less("c", "d") && !Less("d", "c");
    TwoFields(id, k1, v1, k2, v2);
  }

  lemma NestedOuterCanonical(id: nat, k1: string, v1: JsValue, k2: string, v2: JsValue)
    requires v1.Object? || v2.Object?
    requires var inner := if v1.Object? then v1 else v2;
      inner == Object(inner.id, [Field("c", Num(3)), Field("d", Num(2))], None) &&
      [Field(k1, v1), Field(k2, v2)] in {[Field("b", Num(1)), Field("a", inner)], [Field("a", inner), Field("b", Num(1))]}
    ensures var inner := if v1.Object? then v1 else v2;
      Canonical(Object(id, [Field(k1, v1), Field(k2, v2)], None)) == Object(id, [Field("a", inner), Field("b", Num(1))], None)
  {
    var inner := if v1.Object? then v1 else v2;
    NestedInnerCanonical(inner.id, "c", Num(3), "d", Num(2));
    assert Less("a", "b") && !Less("b", "a");
    TwoFields(id, k1, v1, k2, v2);
  }

  lemma NestedFresh(outer: nat, innerId: nat)
    requires outer != innerId
    ensures Fresh(Reached(Object(outer, [Field("a", Object(innerId, [Field("c", Num(3)), Field("d", Num(2))], None)), Field("b", Num(1))], None)), {})
  {
    var inner := Object(innerId, [Field("c", Num(3)), Field("d", Num(2))], None);
    TwoFieldsObjectReached(innerId, inner.fields);
    assert Reached(inner) == multiset{innerId};
    TwoFieldsObjectReached(outer, [Field("a", inner), Field("b", Num(1))]);
  }

  lemma NestedExampleText(cA: JsValue, cB: JsValue)
    requires cA == Object(2, [Field("c", Num(3)), Field("d", Num(2))], None)
    requires cB == Object(4, [Field("c", Num(3)), Field("d", Num(2))], None)
    ensures Render(Object(1, [Field("a", cA), Field("b", Num(1))], None)) == "{\"a\":{\"c\":3,\"d\":2},\"b\":1}"
    ensures Render(Object(3, [Field("a", cB), Field("b", Num(1))], None)) == "{\"a\":{\"c\":3,\"d\":2},\"b\":1}"
  {
    NestedInnerText(2);
    NestedInnerText(4);
    NestedOuterText(1, cA);
    NestedOuterText(3, cB);
  }

  lemma NestedInnerText(id: nat)
    ensures Render(Object(id, [Field("c", Num(3)), Field("d", Num(2))], None)) == "{\"c\":3,\"d\":2}"
  {
    var f := [Field("c", Num(3)), Field("d", Num(2))];
    EscapePlain("c");
    EscapePlain("d");
    assert Quote("c") == "\"c\"" && Quote("d") == "\"d\"";
    assert IntText(3) == "3" && IntText(2) == "2";
    NestedExampleLiterals();
    assert RenderFields(f) == ["\"c\":3", "\"d\":2"];
  }

  lemma NestedOuterText(id: nat, inner: JsValue)
    requires inner.Object? && Render(inner) == "{\"c\":3,\"d\":2}"
    ensures Render(Object(id, [Field("a", inner), Field("b", Num(1))], None)) == "{\"a\":{\"c\":3,\"d\":2},\"b\":1}"
  {
    var f := [Field("a", inner), Field("b", Num(1))];
    EscapePlain("a");
    EscapePlain("b");
    assert Quote("a") == "\"a\"" && Quote("b") == "\"b\"";
    assert IntText(1) == "1";
    NestedExampleLiterals();
    var r := RenderFields(f);
    assert r[0] == "\"a\":" + "{\"c\":3,\"d\":2}";
    assert r[1] == "\"b\":1";
    assert r == ["\"a\":" + "{\"c\":3,\"d\":2}", "\"b\":1"];
  }

  lemma NestedExampleLiterals()
    ensures "\"c\"" + ":" + "3" == "\"c\":3" && "\"d\"" + ":" + "2" == "\"d\":2" && "\"b\"" + ":" + "1" == "\"b\":1"
    ensures "{" + Join(["\"c\":3", "\"d\":2"], ",") + "}" == "{\"c\":3,\"d\":2}"
    ensures "{" + Join(["\"a\":" + "{\"c\":3,\"d\":2}", "\"b\":1"], ",") + "}" == "{\"a\":{\"c\":3,\"d\":2},\"b\":1}"
  {
    InnerJoinLiteral();
    OuterJoinLiteral();
  }

  lemma InnerJoinLiteral()
    ensures "{" + Join(["\"c\":3", "\"d\":2"], ",") + "}" == "{\"c\":3,\"d\":2}"
  {
    assert Join(["\"c\":3", "\"d\":2"], ",") == "\"c\":3" + "," + "\"d\":2";
  }

  lemma OuterJoinLiteral()
    ensures "{" + Join(["\"a\":" + "{\"c\":3,\"d\":2}", "\"b\":1"], ",") + "}" == "{\"a\":{\"c\":3,\"d\":2},\"b\":1}"
  {
    var x := "\"a\":" + "{\"c\":3,\"d\":2}";
    JoinTwo(x, "\"b\":1", ",");
    assert "{" + x == "{\"a\":{\"c\":3,\"d\":2}";
    assert "{\"a\":{\"c\":3,\"d\":2}" + "," + "\"b\":1" + "}" == "{\"a\":{\"c\":3,\"d\":2},\"b\":1}";
  }

  lemma JoinTwo(x: string, y: string, sep: string)
    ensures Join([x, y], sep) == x + sep + y
  {
    assert [x, y][1..] == [y];
  }
}
