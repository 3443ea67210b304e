/** Reading the attributes of a document element, shared by both
    extractors. An element's attributes are a map from name to text. */
module Dom {
  import opened Wrappers

  /** `getAttribute` (and `getAttributeNS` in a browser that returns null for
      a missing attribute): null when the attribute is absent; a value that
      is present, even "", comes back unchanged. */
  function Attribute(attrs: map<string, string>, name: string): (r: Option<string>)
    ensures r.Some? <==> name in attrs
    ensures r.Some? ==> r.value == attrs[name]
  {
    if name in attrs then Some(attrs[name]) else None
  }
}
