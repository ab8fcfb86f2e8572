/**
 * The key rule of the normalized Apollo cache (`dataIdFromObject`): which
 * cache key a fetched object is stored under.
 *
 * The library's own rule (`defaultDataIdFromObject`) is not part of this
 * model; every operation takes it as a function parameter.
 */
module CacheKeys {
  import opened Text

  /**
   * A fetched object as the key rule sees it: its `__typename` and the
   * three fields the rule reads, plus every other field (which only the
   * library's default rule may read).
   */
  datatype CachedObject = CachedObject(
    typename: Option<string>,
    originId: Option<string>,
    uuid: Option<string>,
    url: Option<string>,
    otherFields: map<string, string>)

  /** `defaultDataIdFromObject`: a key, or `undefined` when the object is not normalized. */
  type DefaultRule = CachedObject -> Option<string>

  /**
   * `dataIdFromObject`. Address objects are keyed by their `origin_id`
   * verbatim; Media objects by uuid, then by url, then by the default rule;
   * everything else by the default rule.
   */
  function DataIdFromObject(o: CachedObject, defaultDataId: DefaultRule): (key: Option<string>)
    // An Address key is its origin_id with no type prefix, whatever else the object holds.
    ensures o.typename == Some("Address") ==> key == o.originId
    // A truthy uuid wins over the url.
    ensures o.typename == Some("Media") && Truthy(o.uuid) ==> key == Some("Media:" + o.uuid.value)
    ensures (o.typename == Some("Media") && !Truthy(o.uuid) && Truthy(o.url)) ==>
              key == Some("Media:url:" + o.url.value)
    ensures (o.typename == Some("Media") && !Truthy(o.uuid) && !Truthy(o.url)) ==>
              key == defaultDataId(o)
    // Every other type (or no type at all) takes the library default.
    ensures o.typename != Some("Address") && o.typename != Some("Media") ==> key == defaultDataId(o)
  {
    if o.typename == Some("Address") then
      o.originId
    else if o.typename == Some("Media") then
      if Truthy(o.uuid) then Some("Media:" + o.uuid.value)
      else if Truthy(o.url) then Some("Media:url:" + o.url.value)
      else defaultDataId(o)
    else
      defaultDataId(o)
  }

  /**
   * The key reads nothing but the type, origin_id, uuid and url, and what
   * the default rule reads: two objects that agree on those get one key.
   */
  lemma KeyDependsOnlyOnReadFields(a: CachedObject, b: CachedObject, defaultDataId: DefaultRule)
    requires a.typename == b.typename && a.originId == b.originId
    requires a.uuid == b.uuid && a.url == b.url
    requires defaultDataId(a) == defaultDataId(b)
    ensures DataIdFromObject(a, defaultDataId) == DataIdFromObject(b, defaultDataId)
  {
  }

  /**
   * Two Media objects that are not left to the default rule share a key
   * only when they share the identifying value: equal uuids, or equal urls,
   * or a uuid that is itself "url:" followed by the other object's url.
   */
  lemma {:induction false} MediaKeysCollideOnlyOnSameIdentifier(a: CachedObject, b: CachedObject, defaultDataId: DefaultRule)
    requires a.typename == Some("Media") && b.typename == Some("Media")
    requires Truthy(a.uuid) || Truthy(a.url)
    requires Truthy(b.uuid) || Truthy(b.url)
    requires DataIdFromObject(a, defaultDataId) == DataIdFromObject(b, defaultDataId)
    ensures Truthy(a.uuid) && Truthy(b.uuid) ==> a.uuid == b.uuid
    ensures !Truthy(a.uuid) && !Truthy(b.uuid) ==> a.url == b.url
    ensures Truthy(a.uuid) && !Truthy(b.uuid) ==> a.uuid.value == "url:" + b.url.value
    ensures !Truthy(a.uuid) && Truthy(b.uuid) ==> b.uuid.value == "url:" + a.url.value
  {
    var ka := DataIdFromObject(a, defaultDataId).value;
    var kb := DataIdFromObject(b, defaultDataId).value;
    if Truthy(a.uuid) {
      assert ka == "Media:" + a.uuid.value;
      assert a.uuid.value == ka[6..];
    } else {
      assert ka == "Media:" + ("url:" + a.url.value);
      assert "url:" + a.url.value == ka[6..];
      assert a.url.value == ka[10..];
    }
    if Truthy(b.uuid) {
      assert kb == "Media:" + b.uuid.value;
      assert b.uuid.value == kb[6..];
    } else {
      assert kb == "Media:" + ("url:" + b.url.value);
      assert "url:" + b.url.value == kb[6..];
      assert b.url.value == kb[10..];
    }
  }

  /**
   * The uuid and url key spaces overlap: a Media object whose uuid is
   * "url:x" gets the same key as a Media object with no uuid and url "x".
   */
  lemma MediaUuidAndUrlKeysCanCoincide(defaultDataId: DefaultRule)
    ensures var byUuid := CachedObject(Some("Media"), None, Some("url:x"), None, map[]);
            var byUrl := CachedObject(Some("Media"), None, None, Some("x"), map[]);
            DataIdFromObject(byUuid, defaultDataId) == DataIdFromObject(byUrl, defaultDataId) == Some("Media:url:x")
  {
    assert "Media:" + "url:x" == "Media:url:x";
    assert "Media:url:" + "x" == "Media:url:x";
  }
}
