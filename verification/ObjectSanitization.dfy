/** The recursive sanitizer of request bodies. */
module ObjectSanitization {
  import opened Basics
  import opened Sanitization

  datatype Json =
    | Null
    | Flag(flag: bool)
    | Number(number: real)
    | Text(text: string)
    | List(items: seq<Json>)
    | Object(fields: seq<Field>)

  datatype Field = Field(key: string, value: Json)

  /** The sanitizers that a look-up in the caller's options finds, by field name. */
  type Custom = map<string, Json -> Json>

  /** The key under which `{ ...array }` stores an element. */
  function IndexKey(i: nat): string {
    if i < 10 then [('0' as int + i) as char] else IndexKey(i / 10) + [('0' as int + i % 10) as char]
  }

  function Spread(items: seq<Json>): seq<Field> {
    seq(|items|, i requires 0 <= i < |items| => Field(IndexKey(i), items[i]))
  }

  /** `{ ...obj }`: an array is spread into an object too. */
  function Fields(obj: Json): (fields: seq<Field>)
    requires obj.List? || obj.Object?
    ensures forall i :: 0 <= i < |fields| ==> fields[i].value < obj
  {
    if obj.List? then Spread(obj.items) else obj.fields
  }

  function SanitizeObject(obj: Json, custom: Custom): Json
    decreases obj, 2
  {
    if obj.List? || obj.Object? then
      var fields := Fields(obj);
      Object(seq(|fields|, i requires 0 <= i < |fields| =>
        Field(fields[i].key, SanitizeValue(fields[i].key, fields[i].value, custom))))
    else obj
  }

  function SanitizeValue(key: string, value: Json, custom: Custom): Json
    decreases value, 3
  {
    if key in custom then custom[key](value)
    else if value.Text? then Text(SanitizeString(value.text))
    else if value.Object? then SanitizeObject(value, custom)
    else if value.List? then
      List(seq(|value.items|, i requires 0 <= i < |value.items| => SanitizeItem(value.items[i], custom)))
    else value
  }

  function SanitizeItem(item: Json, custom: Custom): Json
    decreases item, 3
  {
    if item.Text? then Text(SanitizeString(item.text)) else SanitizeObject(item, custom)
  }

  /** The loop calls `hasOwnProperty` on the copy; a field of that name hides the method. */
  predicate HidesMethod(fields: seq<Field>) {
    exists i :: 0 <= i < |fields| && fields[i].key == "hasOwnProperty"
  }

  /** Some object that the recursion reaches has such a field: the call throws. */
  predicate Fails(obj: Json, custom: Custom)
    decreases obj, 2
  {
    (obj.List? || obj.Object?)
    && (HidesMethod(Fields(obj))
        || exists i :: 0 <= i < |Fields(obj)| && ValueFails(Fields(obj)[i].key, Fields(obj)[i].value, custom))
  }

  predicate ValueFails(key: string, value: Json, custom: Custom)
    decreases value, 3
  {
    key !in custom
    && ((value.Object? && Fails(value, custom))
        || (value.List? && exists i :: 0 <= i < |value.items| && Fails(value.items[i], custom)))
  }

  /** The loop over the keys of the copy. */
  method Sanitize(obj: Json, custom: Custom) returns (result: Result<Json, HttpError>)
    ensures result == if Fails(obj, custom) then Err(InternalError) else Ok(SanitizeObject(obj, custom))
    decreases obj, 0
  {
    if !obj.List? && !obj.Object? {
      return Ok(obj);
    }
    var original := Fields(obj);
    var copy := original;
    for k := 0 to |original|
      invariant |copy| == |original|
      invariant k > 0 ==> !HidesMethod(original)
      invariant forall i :: 0 <= i < k ==> !ValueFails(original[i].key, original[i].value, custom)
      invariant forall i :: k <= i < |copy| ==> copy[i] == original[i]
      invariant forall i :: 0 <= i < k ==>
        copy[i] == Field(original[i].key, SanitizeValue(original[i].key, original[i].value, custom))
    {
      hide SanitizeValue, ValueFails, HidesMethod, SanitizeString;
      if HidesMethod(original) {
        return Err(InternalError);
      }
      var sanitized := SanitizeField(copy[k].key, copy[k].value, custom);
      if sanitized.Err? {
        assert ValueFails(original[k].key, original[k].value, custom);
        return sanitized;
      }
      copy := copy[k := Field(copy[k].key, sanitized.value)];
    }
    assert Object(copy) == SanitizeObject(obj, custom);
    result := Ok(Object(copy));
  }

  /** What one round of the loop puts in place of a value. */
  method SanitizeField(key: string, value: Json, custom: Custom) returns (result: Result<Json, HttpError>)
    ensures result == if ValueFails(key, value, custom) then Err(InternalError) else Ok(SanitizeValue(key, value, custom))
    decreases value, 1
  {
    hide SanitizeString;
    if key in custom {
      result := Ok(custom[key](value));
    } else if value.Text? {
      result := Ok(Text(SanitizeString(value.text)));
    } else if value.Object? {
      result := Sanitize(value, custom);
    } else if value.List? && ValueFails(key, value, custom) {
      result := Err(InternalError);
    } else {
      result := Ok(SanitizeValue(key, value, custom));
    }
  }

  // ---------- every string is sanitized ----------

  /** No string in the value holds an unescaped special character. */
  predicate Clean(j: Json) {
    match j
    case Text(s) => WellEscaped(s, ALL_SPECIAL)
    case List(items) => forall i :: 0 <= i < |items| ==> Clean(items[i])
    case Object(fields) => forall i :: 0 <= i < |fields| ==> Clean(fields[i].value)
    case _ => true
  }

  ghost predicate CustomIsClean(custom: Custom) {
    forall key, value :: key in custom ==> Clean(custom[key](value))
  }

  /** Every string inside an object or array is sanitized; only a bare string argument is handed back. */
  lemma {:induction false} SanitizedIsClean(obj: Json, custom: Custom)
    requires CustomIsClean(custom)
    ensures Clean(SanitizeObject(obj, custom)) <==> (obj.Text? ==> Clean(obj))
    decreases obj, 0
  {
    if obj.List? || obj.Object? {
      var fields := Fields(obj);
      forall i | 0 <= i < |fields| ensures Clean(SanitizeValue(fields[i].key, fields[i].value, custom)) {
        ValueIsClean(fields[i].key, fields[i].value, custom);
      }
    }
  }

  lemma {:induction false} ValueIsClean(key: string, value: Json, custom: Custom)
    requires CustomIsClean(custom)
    ensures Clean(SanitizeValue(key, value, custom))
    decreases value, 1
  {
    if key in custom {
    } else if value.Text? {
      SanitizedIsWellEscaped(value.text);
    } else if value.Object? {
      SanitizedIsClean(value, custom);
    } else if value.List? {
      forall i | 0 <= i < |value.items| ensures Clean(SanitizeItem(value.items[i], custom)) {
        if value.items[i].Text? {
          SanitizedIsWellEscaped(value.items[i].text);
        } else {
          SanitizedIsClean(value.items[i], custom);
        }
      }
    }
  }

  // ---------- what becomes of each value ----------

  /**
   * The same structure, keys and non-string leaves; each string is sanitized, and each field with a
   * sanitizer of its own holds what that one returns.
   */
  predicate SanitizedAs(a: Json, b: Json, custom: Custom)
    decreases a, 0
  {
    match a
    case Text(s) => b == Text(SanitizeString(s))
    case List(items) => b.List? && |items| == |b.items|
      && forall i :: 0 <= i < |items| ==> SanitizedAs(items[i], b.items[i], custom)
    case Object(fields) => b.Object? && |fields| == |b.fields|
      && forall i :: 0 <= i < |fields| ==>
        fields[i].key == b.fields[i].key && FieldSanitizedAs(fields[i].key, fields[i].value, b.fields[i].value, custom)
    case _ => a == b
  }

  predicate FieldSanitizedAs(key: string, a: Json, b: Json, custom: Custom)
    decreases a, 1
  {
    if key in custom then b == custom[key](a) else SanitizedAs(a, b, custom)
  }

  /** No array is the argument itself or a direct element of another array. */
  predicate NoNestedArray(j: Json, custom: Custom)
    decreases j, 0
  {
    match j
    case List(_) => false
    case Object(fields) => forall i :: 0 <= i < |fields| ==> FieldHasNoNestedArray(fields[i].key, fields[i].value, custom)
    case _ => true
  }

  /** The condition for the value of a field, which may be an array; the caller's own sanitizers decide for themselves. */
  predicate FieldHasNoNestedArray(key: string, value: Json, custom: Custom)
    decreases value, 1
  {
    if key in custom then true
    else if value.List? then forall i :: 0 <= i < |value.items| ==> NoNestedArray(value.items[i], custom)
    else NoNestedArray(value, custom)
  }

  /**
   * Sanitizing does exactly this, and nothing else, if and only if no array lies directly inside
   * another one: such an array comes back as an object with numbered keys. A bare string argument is
   * handed back as it is.
   */
  lemma {:induction false} SanitizesStringsOnlyIff(obj: Json, custom: Custom)
    requires !obj.Text?
    ensures SanitizedAs(obj, SanitizeObject(obj, custom), custom) <==> NoNestedArray(obj, custom)
    decreases obj, 0
  {
    if obj.Object? {
      var after := SanitizeObject(obj, custom);
      forall i | 0 <= i < |obj.fields|
        ensures after.fields[i].key == obj.fields[i].key
        ensures FieldSanitizedAs(obj.fields[i].key, obj.fields[i].value, after.fields[i].value, custom)
            <==> FieldHasNoNestedArray(obj.fields[i].key, obj.fields[i].value, custom)
      {
        FieldIsSanitizedIff(obj.fields[i].key, obj.fields[i].value, custom);
      }
    }
  }

  lemma {:induction false} FieldIsSanitizedIff(key: string, value: Json, custom: Custom)
    ensures FieldSanitizedAs(key, value, SanitizeValue(key, value, custom), custom) <==> FieldHasNoNestedArray(key, value, custom)
    decreases value, 1
  {
    if key in custom || value.Text? {
    } else if value.Object? {
      SanitizesStringsOnlyIff(value, custom);
    } else if value.List? {
      var after := SanitizeValue(key, value, custom);
      forall i | 0 <= i < |value.items|
        ensures SanitizedAs(value.items[i], after.items[i], custom) <==> NoNestedArray(value.items[i], custom)
      {
        assert after.items[i] == SanitizeItem(value.items[i], custom);
        if !value.items[i].Text? {
          SanitizesStringsOnlyIff(value.items[i], custom);
        }
      }
    }
  }

  // ---------- the shape of the value ----------

  /** The same structure, keys and non-string leaves. */
  predicate SameShape(a: Json, b: Json) {
    match a
    case Text(_) => b.Text?
    case List(items) => b.List? && |items| == |b.items|
      && forall i :: 0 <= i < |items| ==> SameShape(items[i], b.items[i])
    case Object(fields) => b.Object? && |fields| == |b.fields|
      && forall i :: 0 <= i < |fields| ==>
        fields[i].key == b.fields[i].key && SameShape(fields[i].value, b.fields[i].value)
    case _ => a == b
  }

  /** As above, and the caller's own sanitizers keep the shape of what they are given. */
  predicate NoBareArray(j: Json, custom: Custom)
    decreases j, 0
  {
    match j
    case List(_) => false
    case Object(fields) => forall i :: 0 <= i < |fields| ==> KeptInField(fields[i].key, fields[i].value, custom)
    case _ => true
  }

  predicate KeptInField(key: string, value: Json, custom: Custom)
    decreases value, 1
  {
    if key in custom then SameShape(value, custom[key](value))
    else if value.List? then forall i :: 0 <= i < |value.items| ==> NoBareArray(value.items[i], custom)
    else NoBareArray(value, custom)
  }

  /** The shape is kept exactly when no array lies directly inside another one and custom sanitizers keep theirs. */
  lemma {:induction false} ShapeIsKeptIff(obj: Json, custom: Custom)
    ensures SameShape(obj, SanitizeObject(obj, custom)) <==> NoBareArray(obj, custom)
    decreases obj, 0
  {
    if obj.Object? {
      forall i | 0 <= i < |obj.fields|
        ensures SameShape(obj.fields[i].value, SanitizeValue(obj.fields[i].key, obj.fields[i].value, custom))
            <==> KeptInField(obj.fields[i].key, obj.fields[i].value, custom)
      {
        ValueShapeIsKeptIff(obj.fields[i].key, obj.fields[i].value, custom);
      }
      var after := SanitizeObject(obj, custom);
      assert forall i :: 0 <= i < |obj.fields| ==>
        after.fields[i] == Field(obj.fields[i].key, SanitizeValue(obj.fields[i].key, obj.fields[i].value, custom));
    }
  }

  lemma {:induction false} ValueShapeIsKeptIff(key: string, value: Json, custom: Custom)
    ensures SameShape(value, SanitizeValue(key, value, custom)) <==> KeptInField(key, value, custom)
    decreases value, 1
  {
    if key in custom {
    } else if value.Object? {
      ShapeIsKeptIff(value, custom);
    } else if value.List? {
      var after := SanitizeValue(key, value, custom);
      forall i | 0 <= i < |value.items|
        ensures SameShape(value.items[i], after.items[i]) <==> NoBareArray(value.items[i], custom)
      {
        assert after.items[i] == SanitizeItem(value.items[i], custom);
        ShapeIsKeptIff(value.items[i], custom);
      }
    }
  }

  // ---------- what becomes of an array inside an array ----------

  /** The number that a decimal text denotes. */
  function Decimal(text: string): nat {
    if text == "" then 0
    else
      var c := text[|text| - 1];
      10 * Decimal(text[..|text| - 1]) + if '0' <= c <= '9' then c as int - '0' as int else 0
  }

  lemma {:induction false} IndexKeyIsDecimal(i: nat)
    ensures IndexKey(i) != "" && Decimal(IndexKey(i)) == i
    ensures forall k :: 0 <= k < |IndexKey(i)| ==> '0' <= IndexKey(i)[k] <= '9'
  {
    if i >= 10 {
      IndexKeyIsDecimal(i / 10);
      assert IndexKey(i)[..|IndexKey(i)| - 1] == IndexKey(i / 10);
    }
  }

  /** Its elements become fields, in order, each under the decimal text of its position. */
  lemma NestedArrayBecomesObject(items: seq<Json>, custom: Custom)
    ensures var after := SanitizeItem(List(items), custom);
      && after.Object? && |after.fields| == |items|
      && forall i :: 0 <= i < |items| ==>
           && Decimal(after.fields[i].key) == i
           && after.fields[i].value == SanitizeValue(after.fields[i].key, items[i], custom)
  {
    var obj := List(items);
    assert Fields(obj) == Spread(items);
    assert SanitizeItem(obj, custom) == SanitizeObject(obj, custom);
    var after := SanitizeObject(obj, custom);
    forall i | 0 <= i < |items| ensures Decimal(after.fields[i].key) == i {
      IndexKeyIsDecimal(i);
      assert after.fields[i].key == IndexKey(i);
    }
  }
}
