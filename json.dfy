/**
 * JSON values as the gateway sees them through fastjson: objects are maps
 * from keys to values, numbers are integers.
 */
module Json {
  import opened Wrappers

  datatype Json =
    | JNull
    | JBool(b: bool)
    | JNum(n: int)
    | JStr(s: string)
    | JArr(items: seq<Json>)
    | JObj(fields: map<string, Json>)

  type JObject = map<string, Json>

  /** `get(key)`: a missing key reads as null. */
  function Get(o: JObject, key: string): Json {
    if key in o then o[key] else JNull
  }

  /** `String.equalsIgnoreCase` against a word of lower-case ASCII letters:
      each character is the letter, its upper-case form, or, for 's', the long
      s U+017F, whose upper-case form is 'S'. */
  predicate EqualsIgnoreCase(s: string, lower: string) {
    |s| == |lower| &&
    forall i :: 0 <= i < |s| ==>
      s[i] == lower[i] || s[i] as int == lower[i] as int - 32 || (lower[i] == 's' && s[i] == '\U{017F}')
  }

  /** fastjson 1.2's `castToBoolean` on a string: None for the empty string
      and "null"/"NULL" (read as null) and for every unrecognised text (the
      cast throws). */
  function StringToBoolean(s: string): (r: Option<bool>)
    ensures r.Some? ==> 1 <= |s| <= 5
    ensures s == "1" || s == "T" ==> r == Some(true)
    ensures s == "0" || s == "N" ==> r == Some(false)
  {
    if s == "" || s == "null" || s == "NULL" then None
    else if EqualsIgnoreCase(s, "true") || s == "1" then Some(true)
    else if EqualsIgnoreCase(s, "false") || s == "0" then Some(false)
    else if EqualsIgnoreCase(s, "y") || s == "T" then Some(true)
    else if EqualsIgnoreCase(s, "f") || s == "N" then Some(false)
    else None
  }

  /** The texts `castToBoolean` reads as true. */
  lemma StringToBooleanTrue()
    ensures StringToBoolean("true") == Some(true) && StringToBoolean("TRUE") == Some(true)
    ensures StringToBoolean("True") == Some(true) && StringToBoolean("1") == Some(true)
    ensures StringToBoolean("y") == Some(true) && StringToBoolean("Y") == Some(true)
  {
    assert EqualsIgnoreCase("true", "true");
    assert EqualsIgnoreCase("True", "true");
    assert EqualsIgnoreCase("TRUE", "true");
    assert EqualsIgnoreCase("y", "y") && EqualsIgnoreCase("Y", "y");
  }

  /** The texts `castToBoolean` reads as false, the long s included. */
  lemma StringToBooleanFalse()
    ensures StringToBoolean("false") == Some(false) && StringToBoolean("FALSE") == Some(false)
    ensures StringToBoolean("fal\U{017F}e") == Some(false) && StringToBoolean("0") == Some(false)
    ensures StringToBoolean("f") == Some(false) && StringToBoolean("F") == Some(false)
  {
    assert !EqualsIgnoreCase("false", "true") && EqualsIgnoreCase("false", "false");
    assert !EqualsIgnoreCase("FALSE", "true") && EqualsIgnoreCase("FALSE", "false");
    assert !EqualsIgnoreCase("fal\U{017F}e", "true") && EqualsIgnoreCase("fal\U{017F}e", "false");
    assert !EqualsIgnoreCase("f", "y") && EqualsIgnoreCase("f", "f");
    assert !EqualsIgnoreCase("F", "y") && EqualsIgnoreCase("F", "f");
  }

  /** Texts read as null or refused: lower-case "t" and "n" are not
      accepted, only their upper-case forms. */
  lemma StringToBooleanNone()
    ensures StringToBoolean("") == None && StringToBoolean("null") == None
    ensures StringToBoolean("Null") == None && StringToBoolean("t") == None
    ensures StringToBoolean("n") == None && StringToBoolean("yes") == None
  {
    assert "Null"[0] == 'N' && !EqualsIgnoreCase("Null", "true");
    assert |"Null"| != |"false"|;
    assert !EqualsIgnoreCase("t", "y") && !EqualsIgnoreCase("t", "f");
    assert !EqualsIgnoreCase("n", "y") && !EqualsIgnoreCase("n", "f");
    assert !EqualsIgnoreCase("yes", "true") && !EqualsIgnoreCase("yes", "false");
  }

  /** `getBoolean(key)` followed by unboxing to `boolean`, after fastjson
      1.2's `castToBoolean`: None when the value is null (the unboxing
      throws) or cannot be converted (the cast throws). A number converts to
      true exactly when its `intValue`, its low 32 bits, is 1. */
  function GetBoolean(o: JObject, key: string): (r: Option<bool>)
    ensures key !in o || o[key].JNull? || o[key].JArr? || o[key].JObj? ==> r.None?
    ensures key in o && o[key].JBool? ==> r == Some(o[key].b)
    ensures key in o && o[key].JNum? ==> r == Some(o[key].n % 0x1_0000_0000 == 1)
    ensures key in o && o[key].JStr? ==> r == StringToBoolean(o[key].s)
  {
    match Get(o, key)
    case JBool(b) => Some(b)
    case JNum(n) => Some(n % 0x1_0000_0000 == 1)
    case JStr(t) => StringToBoolean(t)
    case _ => None
  }

  /** `getJSONObject(key)`: Some for an object value; None when the value is
      missing or null (the caller then throws) or of another kind (the cast
      throws). A string holding JSON object text is not parsed here. */
  function GetObject(o: JObject, key: string): (r: Option<JObject>)
    ensures r.Some? <==> key in o && o[key].JObj?
    ensures r.Some? ==> o[key] == JObj(r.value)
  {
    match Get(o, key)
    case JObj(f) => Some(f)
    case _ => None
  }
}
