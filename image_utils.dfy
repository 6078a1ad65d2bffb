/** Reading an image field that holds either an image object `{url, ...metadata}` or, for older
    rows, a plain url string. */
module ImageUtils {
  import opened Wrappers
  import opened Js

  /** What the declared parameter type admits: null, undefined, a string or an object. */
  predicate ImageArgument(v: JsValue) {
    v.JNull? || v.JUndefined? || v.JString? || v.JObject?
  }

  /** `getImageUrl`: nothing for a falsy field, the string itself for a string, and the object's
      `url` property (whatever it holds) when it has one. */
  function GetImageUrl(image: JsValue): (url: Option<JsValue>)
    requires ImageArgument(image)
    ensures !Truthy(image) ==> url.None?
    ensures image.JString? && image.s != "" ==> url == Some(image)
    ensures image.JObject? && "url" in image.props ==> url == Some(image.props["url"])
    ensures image.JObject? && "url" !in image.props ==> url.None?
  {
    if !Truthy(image) then None
    else if image.JString? then Some(image)
    else if image.JObject? && "url" in image.props then Some(image.props["url"])
    else None
  }

  /** `getImageMetadata`: the object without its `url`, or nothing for a falsy field, a string,
      or an object that holds only a url. */
  function GetImageMetadata(image: JsValue): (meta: Option<map<string, JsValue>>)
    requires ImageArgument(image)
    ensures meta.Some? <==> image.JObject? && image.props.Keys - {"url"} != {}
    ensures meta.Some? ==> "url" !in meta.value
    ensures meta.Some? ==> forall k :: k in meta.value <==> k in image.props && k != "url"
    ensures meta.Some? ==> forall k :: k in meta.value ==> meta.value[k] == image.props[k]
  {
    if !Truthy(image) || image.JString? then None
    else
      var rest := image.props - {"url"};
      assert rest.Keys == image.props.Keys - {"url"};
      if |rest.Keys| > 0 then Some(rest) else None
  }

  /** The url and the metadata together give back the whole object. */
  lemma UrlAndMetadataRebuildImage(image: JsValue)
    requires image.JObject? && "url" in image.props
    ensures var url := GetImageUrl(image); var meta := GetImageMetadata(image);
            url.Some? && image.props == (if meta.Some? then meta.value else map[])["url" := url.value]
  {
    var meta := GetImageMetadata(image);
    var rebuilt := (if meta.Some? then meta.value else map[])["url" := image.props["url"]];
    assert rebuilt.Keys == image.props.Keys;
  }

  /** `isSupamodeImage`: a non-null object whose `url` is a string. It holds exactly for the
      objects whose url, as `GetImageUrl` reads it, is a string. */
  function IsSupamodeImage(value: JsValue): (b: bool)
    ensures b ==> ImageArgument(value) && value.JObject?
    ensures b <==> ImageArgument(value) && value.JObject? && GetImageUrl(value).Some? && GetImageUrl(value).value.JString?
  {
    value.JObject? && "url" in value.props && value.props["url"].JString?
  }
}
