/** The JavaScript values an agent call can resolve to, and `JSON.stringify` over them.
    An object is its list of own enumerable properties in enumeration order; lookups take
    the first property with a key (keys of a real object are distinct). */
module JsValues {
  import opened Wrappers
  import Strings
  import Decimal

  datatype JsValue =
    | Undefined
    | Null
    | Bool(b: bool)
    | Num(n: int)        // integral numbers only
    | BigInt(big: int)   // JSON.stringify throws a TypeError on a BigInt
    | Str(s: string)
    | Func               // a function value: JSON.stringify omits it
    | Arr(items: seq<JsValue>)
    | Obj(props: seq<Property>)

  datatype Property = Property(key: string, value: JsValue)

  /** `v && typeof v === "object"`: truthy and of type object, so `null` is excluded and
      arrays are included. */
  predicate IsObject(v: JsValue) {
    v.Arr? || v.Obj?
  }

  /** The value of the first property named `key`, if any. */
  function Get(props: seq<Property>, key: string): (r: Option<JsValue>)
    ensures r.Some? <==> exists i :: 0 <= i < |props| && props[i].key == key
  {
    if |props| == 0 then None
    else if props[0].key == key then Some(props[0].value)
    else Get(props[1..], key)
  }

  /** `key in v && typeof v[key] === "string"`, giving that string. Arrays have no such keys. */
  function StringProperty(v: JsValue, key: string): Option<string>
  {
    if v.Obj? then
      match Get(v.props, key)
      case Some(Str(s)) => Some(s)
      case _ => None
    else None
  }

  /** Some BigInt is reachable from `v`; JSON.stringify throws exactly then. */
  predicate HasBigInt(v: JsValue)
  {
    match v
    case BigInt(_) => true
    case Arr(items) => exists i :: 0 <= i < |items| && HasBigInt(items[i])
    case Obj(props) => exists i :: 0 <= i < |props| && HasBigInt(props[i].value)
    case _ => false
  }

  /** JSON.stringify omits these (as object members) or renders them as undefined (at top level). */
  predicate IsOmitted(v: JsValue) {
    v.Undefined? || v.Func?
  }

  /** The three outcomes of JSON.stringify: it throws, it returns undefined, or it returns text. */
  datatype Serialised = Thrown | Omitted | Text(json: string)

  /** A character that can begin the JSON text of a value. */
  predicate StartsJsonValue(c: char) {
    c in "ntf-\"[{" || Decimal.IsDigit(c)
  }

  /** A JSON string literal for `s`, with the escapes JSON.stringify writes. */
  function Quote(s: string): (r: string)
    ensures 2 <= |r| && r[0] == '"' && r[|r| - 1] == '"'
  {
    "\"" + EscapeChars(s) + "\""
  }

  function EscapeChars(s: string): string
  {
    if |s| == 0 then "" else EscapeChar(s[0]) + EscapeChars(s[1..])
  }

  function EscapeChar(c: char): string
  {
    if c == '"' then "\\\""
    else if c == '\\' then "\\\\"
    else if c == '\U{0008}' then "\\b"
    else if c == '\U{000C}' then "\\f"
    else if c == '\n' then "\\n"
    else if c == '\r' then "\\r"
    else if c == '\t' then "\\t"
    else if (c as int) < 0x20 then "\\u00" + [HexDigit(c as int / 16), HexDigit(c as int % 16)]
    else [c]
  }

  function HexDigit(d: nat): char
    requires d < 16
  {
    "0123456789abcdef"[d]
  }

  /** `JSON.stringify(v)`. */
  function Serialise(v: JsValue): (r: Serialised)
    ensures r.Thrown? <==> HasBigInt(v)
    ensures r.Omitted? <==> IsOmitted(v)
    ensures r.Text? ==> 0 < |r.json| && StartsJsonValue(r.json[0])
    ensures v.Obj? && r.Text? ==> 2 <= |r.json| && r.json[0] == '{' && r.json[|r.json| - 1] == '}'
    ensures v.Obj? && r.Text? ==>
              (r.json == "{}" <==> forall i :: 0 <= i < |v.props| ==> IsOmitted(v.props[i].value))
    ensures v.Arr? && r.Text? ==>
              2 <= |r.json| && r.json[0] == '[' && r.json[|r.json| - 1] == ']'
              && (|v.items| == 0 ==> r.json == "[]")
              && (|v.items| > 0 ==> StartsJsonValue(r.json[1]))
    decreases v, 1
  {
    match v
    case Undefined => Omitted
    case Func => Omitted
    case Null => Text("null")
    case Bool(b) => if b then Text("true") else Text("false")
    case Num(n) => Text(Decimal.IntToString(n))
    case BigInt(_) => Thrown
    case Str(s) => Text(Quote(s))
    case Arr(items) =>
      (match ElementTexts(v, items)
       case None => Thrown
       case Some(texts) => Text(Enclose('[', texts, ']')))
    case Obj(props) =>
      (match MemberTexts(v, props)
       case None => Thrown
       case Some(texts) => Text(Enclose('{', texts, '}')))
  }

  /** The texts joined with commas between an opening and a closing bracket. */
  function Enclose(open: char, texts: seq<string>, close: char): (r: string)
    requires forall i :: 0 <= i < |texts| ==> 0 < |texts[i]|
    ensures 2 <= |r| && r[0] == open && r[|r| - 1] == close
    ensures r == [open, close] <==> |texts| == 0
    ensures |texts| > 0 ==> r[1] == texts[0][0]
  {
    JoinEmptyIff(texts);
    if |texts| > 0 then
      JoinStartsWithFirst(texts);
      [open] + Strings.Join(texts, ',') + [close]
    else [open] + Strings.Join(texts, ',') + [close]
  }

  /** The JSON texts of array elements; an omitted element is written `null`. None if one throws. */
  function ElementTexts(ghost parent: JsValue, items: seq<JsValue>): (r: Option<seq<string>>)
    requires forall i :: 0 <= i < |items| ==> items[i] < parent
    ensures r.None? <==> exists i :: 0 <= i < |items| && HasBigInt(items[i])
    ensures r.Some? ==> |r.value| == |items|
    ensures r.Some? ==> forall i :: 0 <= i < |r.value| ==> 0 < |r.value[i]| && StartsJsonValue(r.value[i][0])
    decreases parent, 0, |items|
  {
    if |items| == 0 then Some([])
    else
      var first := match Serialise(items[0])
        case Thrown => None
        case Omitted => Some("null")
        case Text(t) => Some(t);
      var rest := ElementTexts(parent, items[1..]);
      if first.None? || rest.None? then
        assert rest.None? ==> exists i :: 1 <= i < |items| && HasBigInt(items[i]);
        None
      else Some([first.value] + rest.value)
  }

  /** The `"key":value` texts of the properties JSON.stringify keeps, in order. None if one throws. */
  function MemberTexts(ghost parent: JsValue, props: seq<Property>): (r: Option<seq<string>>)
    requires forall i :: 0 <= i < |props| ==> props[i].value < parent
    ensures r.None? <==> exists i :: 0 <= i < |props| && HasBigInt(props[i].value)
    ensures r.Some? ==> forall i :: 0 <= i < |r.value| ==> 0 < |r.value[i]|
    ensures r.Some? ==> (|r.value| == 0 <==> forall i :: 0 <= i < |props| ==> IsOmitted(props[i].value))
    decreases parent, 0, |props|
  {
    if |props| == 0 then Some([])
    else
      var first := Serialise(props[0].value);
      var rest := MemberTexts(parent, props[1..]);
      if first.Thrown? || rest.None? then
        assert rest.None? ==> exists i :: 1 <= i < |props| && HasBigInt(props[i].value);
        None
      else if first.Omitted? then rest
      else Some([Quote(props[0].key) + ":" + first.json] + rest.value)
  }

  lemma JoinStartsWithFirst(texts: seq<string>)
    requires |texts| > 0 && 0 < |texts[0]|
    ensures 0 < |Strings.Join(texts, ',')| && Strings.Join(texts, ',')[0] == texts[0][0]
  {
  }

  lemma JoinEmptyIff(texts: seq<string>)
    requires forall i :: 0 <= i < |texts| ==> 0 < |texts[i]|
    ensures Strings.Join(texts, ',') == "" <==> |texts| == 0
  {
    if |texts| > 0 {
      JoinStartsWithFirst(texts);
    }
  }
}
