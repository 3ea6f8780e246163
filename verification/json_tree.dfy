/**
 * An already-parsed JSON document, and the typed lookups of the org.json
 * library (`getJSONObject`, `getJSONArray`, `getString`) that the feed
 * extraction uses. A lookup that would throw `JSONException` in Java
 * returns `None` here.
 */
module JsonTree {
  import opened Wrappers

  datatype Json =
    | JNull
    | JBool(b: bool)
    | JNumber(n: real)
    | JString(s: string)
    | JArray(items: seq<Json>)
    | JObject(members: map<string, Json>)

  /** `JSONObject.getJSONObject(key)`: the member must exist and be an object. */
  function GetObject(obj: map<string, Json>, key: string): Option<map<string, Json>>
  {
    if key in obj && obj[key].JObject? then Some(obj[key].members) else None
  }

  /** `JSONObject.getJSONArray(key)`: the member must exist and be an array. */
  function GetArray(obj: map<string, Json>, key: string): Option<seq<Json>>
  {
    if key in obj && obj[key].JArray? then Some(obj[key].items) else None
  }

  /** `JSONObject.getString(key)`: the member must exist and be a string. */
  function GetString(obj: map<string, Json>, key: string): Option<string>
  {
    if key in obj && obj[key].JString? then Some(obj[key].s) else None
  }

  /** `JSONArray.getJSONObject(i)` on the element at `i`: it must be an object. */
  function AsObject(element: Json): Option<map<string, Json>>
  {
    if element.JObject? then Some(element.members) else None
  }
}
