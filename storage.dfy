/**
 * The browser's `localStorage`, seen as a key-value port, together with the
 * `JSON.stringify` / `JSON.parse` round trip the application puts through it.
 *
 * An entry is either plain text written with `setItem(key, text)` or a JSON
 * document written with `setItem(key, JSON.stringify(value))`.  Parsing an
 * entry as the JSON shape a reader expects succeeds exactly on a document of
 * that shape; anything else is a parse failure, reported as `None`.
 */
module Storage {
  import opened Wrappers

  datatype JsonValue =
    | JObject(fields: map<string, string>)  // a `Record<string, string>`
    | JArray(elems: seq<string>)            // a `string[]`

  datatype Entry = Text(text: string) | Json(doc: JsonValue)

  /** JavaScript truthiness of the string `getItem` returns: only `''` is falsy. */
  predicate Truthy(e: Entry) {
    !(e.Text? && e.text == "")
  }

  /** `JSON.parse(raw)` read as a string map. */
  function ParseObject(e: Entry): (r: Option<map<string, string>>)
    ensures r.Some? <==> e.Json? && e.doc.JObject?
    ensures r.Some? ==> e == Json(JObject(r.value))
  {
    if e.Json? && e.doc.JObject? then Some(e.doc.fields) else None
  }

  /**
   * `JSON.parse(raw)` read as a string array. Valid JSON of another shape
   * reads as `None` like text that is not JSON, although `JSON.parse` returns it.
   */
  function ParseArray(e: Entry): (r: Option<seq<string>>)
    ensures r.Some? <==> e.Json? && e.doc.JArray?
    ensures r.Some? ==> e == Json(JArray(r.value))
  {
    if e.Json? && e.doc.JArray? then Some(e.doc.elems) else None
  }

  /** `JSON.stringify(m)`. */
  function StringifyObject(m: map<string, string>): (e: Entry)
    ensures Truthy(e) && ParseObject(e) == Some(m)
  {
    Json(JObject(m))
  }

  /** `JSON.stringify(xs)`. */
  function StringifyArray(xs: seq<string>): (e: Entry)
    ensures Truthy(e) && ParseArray(e) == Some(xs)
  {
    Json(JArray(xs))
  }

  /**
   * `localStorage.getItem(key) || default` for a key that holds plain text.
   * A JSON document under such a key is not something the application ever
   * writes; it reads as the default.
   */
  function TextOr(items: map<string, Entry>, key: string, default: string): (r: string)
    ensures key in items && Truthy(items[key]) && items[key].Text? ==> r == items[key].text
    ensures key !in items || !Truthy(items[key]) || items[key].Json? ==> r == default
  {
    if key in items && items[key].Text? && items[key].text != "" then items[key].text else default
  }

  class LocalStorage {
    var items: map<string, Entry>

    constructor (initial: map<string, Entry>)
      ensures items == initial
    {
      items := initial;
    }

    /** `localStorage.getItem(key)`; `None` stands for `null`. */
    function GetItem(key: string): (r: Option<Entry>)
      reads this
      ensures r.Some? <==> key in items
      ensures r.Some? ==> r.value == items[key]
    {
      if key in items then Some(items[key]) else None
    }

    /** `localStorage.setItem(key, value)`. */
    method SetItem(key: string, value: Entry)
      modifies this
      ensures items == old(items)[key := value]
    {
      items := items[key := value];
    }

    /** `localStorage.removeItem(key)`. */
    method RemoveItem(key: string)
      modifies this
      ensures items == old(items) - {key}
    {
      items := items - {key};
    }
  }
}
