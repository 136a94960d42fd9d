/** Where an image or a file of a material is fetched from: the priority rule the
    card renderer applies (explicit URL, else object-storage key, else nothing),
    and the direct object-storage URL the download falls back to. */
module Assets {
  import opened Wrappers
  import opened Text
  import opened Materials

  /** The fixed object-storage bucket every stored key lives under:
      https://s3.twcstorage.ru/3dac1c3b-5d899f73-21c9-4b9c-8b6a-8d9ce272565b */
  const StorageScheme := "https://"
  const StorageHost := "s3.twcstorage.ru"
  const StorageBucket := "3dac1c3b-5d899f73-21c9-4b9c-8b6a-8d9ce272565b"
  const StorageBase := StorageScheme + StorageHost + "/" + StorageBucket

  /** The object-storage address of a stored key. */
  function StorageUrl(key: string): (u: string)
    ensures IsPrefix(StorageBase + "/", u) && u[|StorageBase| + 1..] == key
  {
    StorageBase + "/" + key
  }

  /** An explicit URL is trusted when it is non-empty and is not one of the
      stand-in addresses the back end stores ("placeholder", "example.com"). */
  predicate IsUsableUrl(u: string) {
    u != "" && !Includes(u, "placeholder") && !Includes(u, "example.com")
  }

  /** The address the card uses for an image (and computes for a file): the
      explicit URL when it is usable, otherwise the storage URL of the key,
      otherwise none. */
  function ResolveAssetUrl(explicitUrl: string, key: string): (r: Option<string>)
    ensures IsUsableUrl(explicitUrl) ==> r == Some(explicitUrl)
    ensures !IsUsableUrl(explicitUrl) && key != "" ==> r == Some(StorageUrl(key))
    ensures !IsUsableUrl(explicitUrl) && key == "" ==> r == None
  {
    if IsUsableUrl(explicitUrl) then Some(explicitUrl)
    else if key != "" then Some(StorageUrl(key))
    else None
  }

  /** A URL is resolved exactly when a usable URL or a key is present, and a
      rejected stand-in URL never comes out: the result is then a storage URL. */
  lemma ResolvedUrlOrigin(explicitUrl: string, key: string)
    ensures ResolveAssetUrl(explicitUrl, key).Some? <==> IsUsableUrl(explicitUrl) || key != ""
    ensures forall u :: ResolveAssetUrl(explicitUrl, key) == Some(u) ==>
              (u == explicitUrl && IsUsableUrl(u)) || (!IsUsableUrl(explicitUrl) && IsPrefix(StorageBase + "/", u))
  {
  }

  /** The scheme normalisation of the download fallback: a URL that does not
      start with "http" gets "https://" in front. The script applies it only to
      a non-empty URL. */
  function WithScheme(u: string): (r: string)
    requires u != ""
    ensures IsPrefix("http", r)
    ensures IsPrefix("http", u) ==> r == u
    ensures !IsPrefix("http", u) ==> r == "https://" + u
  {
    if IsPrefix("http", u) then u else "https://" + u
  }

  /** A material carries a file reference (`fileUrl || fileKey`). */
  predicate HasFileRef(m: Material) {
    m.fileUrl != "" || m.fileKey != ""
  }

  /** The direct object-storage URL `downloadMaterial` falls back to: the first
      material with the given `_id`, its `fileUrl` if set (even a stand-in one),
      else the storage URL of its `fileKey`, with the scheme made explicit. */
  function DirectStorageUrl(ms: seq<Material>, id: string): (r: Option<string>)
    ensures (forall j :: 0 <= j < |ms| ==> ms[j].id != id) ==> r == None
    ensures forall k :: IsFirstWithId(ms, id, k) ==> (r.None? <==> !HasFileRef(ms[k]))
    ensures forall k :: IsFirstWithId(ms, id, k) && ms[k].fileUrl != "" ==>
              r == Some(WithScheme(ms[k].fileUrl))
    ensures forall k :: IsFirstWithId(ms, id, k) && ms[k].fileUrl == "" && ms[k].fileKey != "" ==>
              r == Some(StorageUrl(ms[k].fileKey))
    ensures r.Some? ==> IsPrefix("http", r.value)
  {
    match FindFrom(ms, id, 0)
    case None => None
    case Some(k) =>
      var m := ms[k];
      if !HasFileRef(m) then None
      else
        var direct := if m.fileUrl != "" then m.fileUrl else StorageUrl(m.fileKey);
        StorageUrlHasScheme(m.fileKey);
        Some(WithScheme(direct))
  }

  /** A storage URL already names its scheme, so the normalisation keeps it. */
  lemma StorageUrlHasScheme(key: string)
    ensures IsPrefix("http", StorageUrl(key))
    ensures WithScheme(StorageUrl(key)) == StorageUrl(key)
  {
  }
}
