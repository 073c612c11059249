/** Metadata records for course assets and their thumbnails, as stored in
    the modulestore: an asset key fixed at construction, a fixed set of
    attributes, a whitelist-filtered bulk update, and a conversion to and from
    the document-store form. */
module AssetMetadataModel {
  import opened Wrappers
  import opened PythonValues

  /** The two parts of an asset key the records read; the rest of the key is opaque. */
  datatype AssetKey = AssetKey(assetType: string, path: string)

  /** The exceptions the records raise. */
  datatype Error = IncorrectAssetIdType | KeyError(name: string)

  /** An attribute dictionary or a document-store document. */
  type Doc = map<string, PyValue>

  const TOP_LEVEL_ATTRS: seq<string> := ["basename", "internal_name", "locked", "contenttype", "md5"]
  const EDIT_INFO_ATTRS: seq<string> := ["curr_version", "prev_version", "edited_by", "edited_on"]
  /** The attributes `update` may set; also the order in which `from_mongo` reads them. */
  const ALLOWED_ATTRS: seq<string> := TOP_LEVEL_ATTRS + EDIT_INFO_ATTRS

  /** Every asset metadata key must have this asset type. */
  const ASSET_TYPE: string := "asset"
  /** Every thumbnail metadata key must have this asset type. */
  const THUMBNAIL_ASSET_TYPE: string := "thumbnail"

  function AllowedSet(): set<string> {
    set a | a in ALLOWED_ATTRS
  }

  /** The allowed attribute names, written out. */
  lemma AllowedSetIs()
    ensures AllowedSet() == {"basename", "internal_name", "locked", "contenttype", "md5",
                             "curr_version", "prev_version", "edited_by", "edited_on"}
  {
  }

  /** The attributes a new record starts with; an `edited_on` that is not
      given (falsy) takes the current time, supplied as `now`. */
  function InitialAttrs(basename: PyValue, internalName: PyValue, locked: PyValue, contenttype: PyValue, md5: PyValue,
                        currVersion: PyValue, prevVersion: PyValue, editedBy: PyValue, editedOn: PyValue, now: PyValue): (attrs: Doc)
    ensures attrs.Keys == AllowedSet()
    ensures attrs["edited_on"] == if Truthy(editedOn) then editedOn else now
    ensures attrs["basename"] == basename && attrs["internal_name"] == internalName && attrs["locked"] == locked
    ensures attrs["contenttype"] == contenttype && attrs["md5"] == md5
    ensures attrs["curr_version"] == currVersion && attrs["prev_version"] == prevVersion && attrs["edited_by"] == editedBy
  {
    map["basename" := basename, "internal_name" := internalName, "locked" := locked,
        "contenttype" := contenttype, "md5" := md5,
        "curr_version" := currVersion, "prev_version" := prevVersion,
        "edited_by" := editedBy, "edited_on" := if Truthy(editedOn) then editedOn else now]
  }

  /** The effect of `update(changes)` on the attributes: entries whose name
      is an allowed attribute overwrite it, all other entries are ignored. */
  function Updated(attrs: Doc, changes: Doc): (r: Doc)
    ensures r.Keys == attrs.Keys + (changes.Keys * AllowedSet())
    ensures forall a :: a in changes && a in ALLOWED_ATTRS ==> r[a] == changes[a]
    ensures forall a :: a in attrs && !(a in changes && a in ALLOWED_ATTRS) ==> r[a] == attrs[a]
  {
    map a | a in attrs.Keys + (changes.Keys * AllowedSet()) ::
      if a in changes && a in ALLOWED_ATTRS then changes[a] else attrs[a]
  }

  /** The entries of `changes` that name an allowed attribute. */
  function AllowedPart(changes: Doc): (r: Doc)
    ensures r.Keys == changes.Keys * AllowedSet()
    ensures forall a :: a in r ==> r[a] == changes[a]
  {
    map a | a in changes && a in ALLOWED_ATTRS :: changes[a]
  }

  /** `update` keeps the attribute set of a record and depends only on the
      allowed entries of `changes`: the others are ignored. */
  lemma UpdateSetsOnlyAllowed(attrs: Doc, changes: Doc)
    requires attrs.Keys == AllowedSet()
    ensures Updated(attrs, changes).Keys == AllowedSet()
    ensures Updated(attrs, changes) == Updated(attrs, AllowedPart(changes))
  {
    var u, v := Updated(attrs, changes), Updated(attrs, AllowedPart(changes));
    assert u.Keys == v.Keys;
  }

  /** Applying the same `update` twice is the same as applying it once. */
  lemma UpdateIdempotent(attrs: Doc, changes: Doc)
    ensures Updated(Updated(attrs, changes), changes) == Updated(attrs, changes)
  {
    var u := Updated(attrs, changes);
    assert Updated(u, changes).Keys == u.Keys;
  }

  /** The document `to_mongo` builds: the key's path under `filename` and
      every attribute under its own name. The record holds exactly the
      allowed attributes, none of them named `filename`, so this is the
      source's ten-entry dictionary. */
  function MongoDoc(assetId: AssetKey, attrs: Doc): (doc: Doc)
    requires attrs.Keys == AllowedSet()
    ensures doc.Keys == {"filename"} + AllowedSet()
    ensures doc["filename"] == Unicode(assetId.path)
    ensures forall a :: a in attrs ==> doc[a] == attrs[a]
  {
    AllowedSetIs();
    attrs["filename" := Unicode(assetId.path)]
  }

  /** Index of the first name the document lacks, or |names| when it has
      them all. */
  function FirstMissing(doc: Doc, names: seq<string>): (i: nat)
    decreases |names|
    ensures i <= |names|
    ensures forall j :: 0 <= j < i ==> names[j] in doc
    ensures i < |names| ==> names[i] !in doc
  {
    if names == [] || names[0] !in doc then 0 else 1 + FirstMissing(doc, names[1..])
  }

  /** `from_mongo` on a document: assign the named attributes from the
      document in order, stopping with a KeyError at the first one missing
      (the ones before it stay assigned). */
  function FillFrom(attrs: Doc, doc: Doc, names: seq<string>): (r: (Doc, Outcome<Error>))
    decreases |names|
    ensures var i := FirstMissing(doc, names);
      r.1 == if i < |names| then Fail(KeyError(names[i])) else Pass
  {
    if names == [] then (attrs, Pass)
    else if names[0] !in doc then (attrs, Fail(KeyError(names[0])))
    else FillFrom(attrs[names[0] := doc[names[0]]], doc, names[1..])
  }

  /** When the document has every name, filling succeeds and each named
      attribute takes the document's value. */
  lemma {:induction false} FillFromComplete(attrs: Doc, doc: Doc, names: seq<string>)
    requires forall n :: n in names ==> n in doc
    decreases |names|
    ensures FillFrom(attrs, doc, names).1 == Pass
    ensures var r := FillFrom(attrs, doc, names).0;
      && r.Keys == attrs.Keys + (set n | n in names)
      && forall a :: a in r ==> r[a] == if a in names then doc[a] else attrs[a]
  {
    if names != [] {
      FillFromComplete(attrs[names[0] := doc[names[0]]], doc, names[1..]);
      var r := FillFrom(attrs, doc, names).0;
      assert (set n | n in names) == {names[0]} + (set n | n in names[1..]);
      forall a | a in r
        ensures r[a] == if a in names then doc[a] else attrs[a]
      {
        if a !in names[1..] && a == names[0] {
          assert r[a] == doc[a];
        }
      }
    }
  }

  /** A document missing an attribute makes `from_mongo` fail with a KeyError
      naming the first missing one. */
  lemma FillFromMissing(attrs: Doc, doc: Doc, names: seq<string>, missing: string)
    requires missing in names && missing !in doc
    ensures var i := FirstMissing(doc, names);
      && i < |names| && names[i] !in doc
      && FillFrom(attrs, doc, names).1 == Fail(KeyError(names[i]))
  {
  }

  /** `from_mongo(to_mongo())` restores every attribute, whatever the record
      held before. */
  lemma MongoRoundTrip(assetId: AssetKey, attrs: Doc, before: Doc)
    requires attrs.Keys == AllowedSet() && before.Keys == AllowedSet()
    ensures FillFrom(before, MongoDoc(assetId, attrs), ALLOWED_ATTRS) == (attrs, Pass)
  {
    var doc := MongoDoc(assetId, attrs);
    assert forall n :: n in ALLOWED_ATTRS ==> n in doc;
    FillFromComplete(before, doc, ALLOWED_ATTRS);
    var r := FillFrom(before, doc, ALLOWED_ATTRS).0;
    assert r.Keys == attrs.Keys;
    forall a | a in r
      ensures r[a] == attrs[a]
    {
      assert a in ALLOWED_ATTRS;
      assert r[a] == doc[a];
    }
    assert r == attrs;
  }

  /** `AssetMetadata`: an asset key and the allowed attributes. */
  class AssetMetadata {
    const assetId: AssetKey
    var attrs: Doc

    ghost predicate Valid()
      reads this
    {
      attrs.Keys == AllowedSet()
    }

    constructor Init(assetId: AssetKey, basename: PyValue, internalName: PyValue, locked: PyValue, contenttype: PyValue, md5: PyValue,
                     currVersion: PyValue, prevVersion: PyValue, editedBy: PyValue, editedOn: PyValue, now: PyValue)
      ensures Valid() && this.assetId == assetId
      ensures attrs == InitialAttrs(basename, internalName, locked, contenttype, md5, currVersion, prevVersion, editedBy, editedOn, now)
    {
      this.assetId := assetId;
      attrs := InitialAttrs(basename, internalName, locked, contenttype, md5, currVersion, prevVersion, editedBy, editedOn, now);
    }

    /** `AssetMetadata(asset_id, ...)`: raises IncorrectAssetIdType unless the
        key's asset type is 'asset'. */
    static method Create(assetId: AssetKey, basename: PyValue, internalName: PyValue, locked: PyValue, contenttype: PyValue, md5: PyValue,
                         currVersion: PyValue, prevVersion: PyValue, editedBy: PyValue, editedOn: PyValue, now: PyValue)
      returns (r: Result<AssetMetadata, Error>)
      ensures assetId.assetType != ASSET_TYPE ==> r == Err(IncorrectAssetIdType)
      ensures assetId.assetType == ASSET_TYPE ==>
        && r.Ok? && fresh(r.value) && r.value.Valid() && r.value.assetId == assetId
        && r.value.attrs == InitialAttrs(basename, internalName, locked, contenttype, md5, currVersion, prevVersion, editedBy, editedOn, now)
    {
      if assetId.assetType != ASSET_TYPE {
        return Err(IncorrectAssetIdType);
      }
      var m := new AssetMetadata.Init(assetId, basename, internalName, locked, contenttype, md5, currVersion, prevVersion, editedBy, editedOn, now);
      r := Ok(m);
    }

    /** `update`: walk the dictionary and set each entry that names an allowed attribute. */
    method Update(changes: Doc)
      requires Valid()
      modifies this`attrs
      ensures Valid()
      ensures attrs == Updated(old(attrs), changes)
    {
      var todo := changes.Keys;
      while todo != {}
        invariant todo <= changes.Keys
        invariant attrs.Keys == AllowedSet()
        invariant forall a :: a in attrs ==>
          attrs[a] == if a in changes && a !in todo && a in ALLOWED_ATTRS then changes[a] else old(attrs)[a]
        decreases todo
      {
        var a :| a in todo;
        if a in ALLOWED_ATTRS {
          attrs := attrs[a := changes[a]];
        }
        todo := todo - {a};
      }
      assert attrs.Keys == Updated(old(attrs), changes).Keys;
    }

    /** `to_mongo` */
    function ToMongo(): (doc: Doc)
      reads this
      requires Valid()
      ensures doc == MongoDoc(assetId, attrs)
    {
      MongoDoc(assetId, attrs)
    }

    /** `from_mongo`: nothing happens for no document; otherwise each
        attribute is read from the document in turn. */
    method FromMongo(doc: Option<Doc>) returns (r: Outcome<Error>)
      requires Valid()
      modifies this`attrs
      ensures Valid()
      ensures doc.None? ==> r == Pass && attrs == old(attrs)
      ensures doc.Some? ==> (attrs, r) == FillFrom(old(attrs), doc.value, ALLOWED_ATTRS)
    {
      if doc.None? {
        return Pass;
      }
      FillFromKeepsKeys(attrs, doc.value, ALLOWED_ATTRS);
      attrs, r := FillFrom(attrs, doc.value, ALLOWED_ATTRS).0, FillFrom(attrs, doc.value, ALLOWED_ATTRS).1;
    }
  }

  /** Filling only assigns names already among the attributes (or named in the list). */
  lemma {:induction false} FillFromKeepsKeys(attrs: Doc, doc: Doc, names: seq<string>)
    ensures attrs.Keys <= FillFrom(attrs, doc, names).0.Keys <= attrs.Keys + (set n | n in names)
    decreases |names|
  {
    if names != [] && names[0] in doc {
      FillFromKeepsKeys(attrs[names[0] := doc[names[0]]], doc, names[1..]);
    }
  }

  /** The document a thumbnail's `to_mongo` builds. */
  function ThumbnailDoc(assetId: AssetKey, internalName: PyValue): (doc: Doc)
    ensures doc.Keys == {"filename", "internal_name"}
    ensures doc["filename"] == Unicode(assetId.path) && doc["internal_name"] == internalName
  {
    map["filename" := Unicode(assetId.path), "internal_name" := internalName]
  }

  /** `AssetThumbnailMetadata`: an asset key and an internal name. */
  class AssetThumbnailMetadata {
    const assetId: AssetKey
    var internalName: PyValue

    constructor Init(assetId: AssetKey, internalName: PyValue)
      ensures this.assetId == assetId && this.internalName == internalName
    {
      this.assetId := assetId;
      this.internalName := internalName;
    }

    /** `AssetThumbnailMetadata(asset_id, internal_name)`: raises
        IncorrectAssetIdType unless the key's asset type is 'thumbnail'. */
    static method Create(assetId: AssetKey, internalName: PyValue) returns (r: Result<AssetThumbnailMetadata, Error>)
      ensures assetId.assetType != THUMBNAIL_ASSET_TYPE ==> r == Err(IncorrectAssetIdType)
      ensures assetId.assetType == THUMBNAIL_ASSET_TYPE ==>
        r.Ok? && fresh(r.value) && r.value.assetId == assetId && r.value.internalName == internalName
    {
      if assetId.assetType != THUMBNAIL_ASSET_TYPE {
        return Err(IncorrectAssetIdType);
      }
      var t := new AssetThumbnailMetadata.Init(assetId, internalName);
      r := Ok(t);
    }

    /** `to_mongo` */
    function ToMongo(): (doc: Doc)
      reads this
      ensures doc == ThumbnailDoc(assetId, internalName)
    {
      ThumbnailDoc(assetId, internalName)
    }

    /** `from_mongo`: nothing happens for no document; otherwise the
        internal name is read from it, a KeyError if it is missing. */
    method FromMongo(doc: Option<Doc>) returns (r: Outcome<Error>)
      modifies this`internalName
      ensures doc.None? ==> r == Pass && internalName == old(internalName)
      ensures doc.Some? && "internal_name" !in doc.value ==> r == Fail(KeyError("internal_name")) && internalName == old(internalName)
      ensures doc.Some? && "internal_name" in doc.value ==> r == Pass && internalName == doc.value["internal_name"]
    {
      if doc.None? {
        return Pass;
      }
      if "internal_name" !in doc.value {
        return Fail(KeyError("internal_name"));
      }
      internalName := doc.value["internal_name"];
      r := Pass;
    }
  }
}
