/** Reading an image field stored as text: either the JSON of an image object or a plain url.
    `JSON.parse` is a parameter: it returns None where it throws. */
module Utils {
  import opened Wrappers
  import opened Js

  /** `getImageUrl` on a text field. A field that does not parse, or parses to null (reading its
      `url` throws into the same handler), is taken as the url itself; otherwise the parsed
      value's `url` when it is truthy, else nothing. */
  function GetImageUrl(field: Option<string>, parse: string -> Option<JsValue>): (url: Option<JsValue>)
    ensures !StrTruthy(field) ==> url.None?
    ensures StrTruthy(field) && parse(field.value).None? ==> url == Some(JString(field.value))
    ensures StrTruthy(field) && parse(field.value).Some? && parse(field.value).value.JNull? ==>
              url == Some(JString(field.value))
    ensures StrTruthy(field) && parse(field.value).Some? && Get(parse(field.value).value, "url").Some? ==>
              var u := Get(parse(field.value).value, "url").value;
              url == if Truthy(u) then Some(u) else None
    ensures url.Some? ==> Truthy(url.value)
  {
    if !StrTruthy(field) then None
    else match parse(field.value)
      case None => Some(JString(field.value))
      case Some(parsed) =>
        match Get(parsed, "url")
        case None => Some(JString(field.value))
        case Some(u) => if Truthy(u) then Some(u) else None
  }

  /** The object `{url: field}`. */
  function UrlObject(field: string): (obj: JsValue)
    ensures obj.JObject? && obj.props.Keys == {"url"} && obj.props["url"] == JString(field)
  {
    JObject(map["url" := JString(field)])
  }

  /** `getImageData`: the parsed object when its `url` is truthy, `{url: field}` when the field
      does not parse (or parses to null), else nothing. */
  function GetImageData(field: Option<string>, parse: string -> Option<JsValue>): (data: Option<JsValue>)
    ensures !StrTruthy(field) ==> data.None?
    ensures StrTruthy(field) && parse(field.value).None? ==> data == Some(UrlObject(field.value))
    ensures StrTruthy(field) && parse(field.value).Some? && parse(field.value).value.JNull? ==>
              data == Some(UrlObject(field.value))
    ensures StrTruthy(field) && parse(field.value).Some? && Get(parse(field.value).value, "url").Some? ==>
              data == if Truthy(Get(parse(field.value).value, "url").value) then parse(field.value) else None
  {
    if !StrTruthy(field) then None
    else match parse(field.value)
      case None => Some(UrlObject(field.value))
      case Some(parsed) =>
        match Get(parsed, "url")
        case None => Some(UrlObject(field.value))
        case Some(u) => if Truthy(u) then Some(parsed) else None
  }

  /** The two readers agree: the url is the `url` of the data, and each is missing exactly when
      the other is. */
  lemma UrlIsUrlOfData(field: Option<string>, parse: string -> Option<JsValue>)
    ensures GetImageUrl(field, parse).None? <==> GetImageData(field, parse).None?
    ensures GetImageData(field, parse).Some? ==>
              Get(GetImageData(field, parse).value, "url") == GetImageUrl(field, parse)
  {
  }

  /** A plain url that JSON does not accept is returned unchanged. */
  lemma PlainUrlPassesThrough(url: string, parse: string -> Option<JsValue>)
    requires url != "" && parse(url).None?
    ensures GetImageUrl(Some(url), parse) == Some(JString(url))
    ensures GetImageData(Some(url), parse) == Some(UrlObject(url))
  {
  }
}
