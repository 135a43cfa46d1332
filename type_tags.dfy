/**
 * `removeJsonType`: fastjson writes a `@type` entry into objects whose class
 * it records. The gateway strips these from a reply before reading it.
 */
module TypeTags {
  import opened Json

  const TypeKey: string := "@type"

  /** An object whose only entry is `@type`. */
  predicate IsTypeTag(v: Json) {
    v.JObj? && |v.fields| == 1 && TypeKey in v.fields
  }

  /** What `removeJsonType` leaves of an object: the `@type` entry and every
      entry holding a bare type tag are gone, and every other object-valued
      entry is stripped in turn. Arrays are not entered. */
  function Strip(m: JObject): (r: JObject)
    decreases JObj(m), 0
    ensures TypeKey !in r
    ensures forall k :: k in r ==> k in m && !IsTypeTag(m[k])
    ensures forall k :: k in m && k != TypeKey && !m[k].JObj? ==> k in r && r[k] == m[k]
    ensures forall k :: k in m && k != TypeKey && m[k].JObj? && !IsTypeTag(m[k]) ==> k in r && r[k].JObj?
  {
    map k | k in m && k != TypeKey && !IsTypeTag(m[k]) :: StripValue(m[k])
  }

  function StripValue(v: Json): Json
    decreases v, 1
  {
    if v.JObj? then JObj(Strip(v.fields)) else v
  }

  /** No `@type` entry in the object, nor in any object reached through
      object-valued entries. */
  predicate TagFree(m: JObject)
    decreases JObj(m)
  {
    TypeKey !in m && forall k :: k in m && m[k].JObj? ==> TagFree(m[k].fields)
  }

  /** Whatever reply comes in, nothing `@type` survives on the object path. */
  lemma {:induction false} StripIsTagFree(m: JObject)
    ensures TagFree(Strip(m))
    decreases JObj(m)
  {
    forall k | k in Strip(m) && Strip(m)[k].JObj?
      ensures TagFree(Strip(m)[k].fields)
    {
      assert Strip(m)[k] == StripValue(m[k]);
      StripIsTagFree(m[k].fields);
    }
  }

  /** An object already free of tags is left as it is. */
  lemma {:induction false} StripTagFreeIsIdentity(m: JObject)
    requires TagFree(m)
    ensures Strip(m) == m
    decreases JObj(m)
  {
    forall k | k in m
      ensures k in Strip(m) && Strip(m)[k] == m[k]
    {
      if m[k].JObj? {
        StripTagFreeIsIdentity(m[k].fields);
      }
    }
  }

  /** Stripping twice is stripping once. */
  lemma StripIdempotent(m: JObject)
    ensures Strip(Strip(m)) == Strip(m)
  {
    StripIsTagFree(m);
    StripTagFreeIsIdentity(Strip(m));
  }

  /** `removeJsonType(jsonObject)`. The source edits the object in place;
      here the edited object is returned. The first loop visits every key,
      records the entries holding a bare tag and strips the other object
      entries; the second deletes what was recorded; then `@type` goes. */
  method RemoveJsonType(o: JObject) returns (r: JObject)
    ensures r == Strip(o)
    decreases JObj(o)
  {
    var current := o;
    var needDel: seq<string> := [];
    var todo := o.Keys;
    while todo != {}
      invariant todo <= o.Keys
      invariant forall k :: k in current <==> k in o
      invariant forall k :: k in todo ==> current[k] == o[k]
      invariant forall k :: k in o && k !in todo && !IsTypeTag(o[k]) ==> current[k] == StripValue(o[k])
      invariant forall k :: k in needDel <==> k in o && k !in todo && IsTypeTag(o[k])
      decreases |todo|
    {
      var key :| key in todo;
      var v := o[key];
      if v.JObj? {
        if IsTypeTag(v) {
          needDel := needDel + [key];
        } else {
          var child := RemoveJsonType(v.fields);
          current := current[key := JObj(child)];
        }
      }
      todo := todo - {key};
    }
    current := RemoveAll(current, needDel);
    r := current - {TypeKey};
    StrippedAfterDeletes(o, r);
  }

  /** The deletion loop over `needDelList`. */
  method RemoveAll(m: JObject, keys: seq<string>) returns (r: JObject)
    ensures forall k :: k in r <==> k in m && k !in keys
    ensures forall k :: k in r ==> r[k] == m[k]
  {
    r := m;
    var i := 0;
    while i < |keys|
      invariant 0 <= i <= |keys|
      invariant forall k :: k in r <==> k in m && k !in keys[..i]
      invariant forall k :: k in r ==> r[k] == m[k]
    {
      assert keys[..i + 1] == keys[..i] + [keys[i]];
      r := r - {keys[i]};
      i := i + 1;
    }
    assert keys[..i] == keys;
  }

  lemma StrippedAfterDeletes(o: JObject, r: JObject)
    requires forall k :: k in r <==> k in o && k != TypeKey && !IsTypeTag(o[k])
    requires forall k :: k in r ==> r[k] == StripValue(o[k])
    ensures r == Strip(o)
  {
  }
}
