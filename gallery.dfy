/** The gallery endpoints: the annotated catalog and the lookups by repo and by uniqueID. */
module Gallery {
  import opened Wrappers
  import opened Records
  import opened Paths
  import opened Store

  function Repos(catalog: seq<GalleryEntry>): (r: seq<string>)
    ensures |r| == |catalog|
    ensures forall i :: 0 <= i < |r| ==> r[i] == catalog[i].repo
  {
    seq(|catalog|, i requires 0 <= i < |catalog| => catalog[i].repo)
  }

  function UniqueIds(catalog: seq<GalleryEntry>): (r: seq<string>)
    ensures |r| == |catalog|
    ensures forall i :: 0 <= i < |r| ==> r[i] == catalog[i].uniqueID
  {
    seq(|catalog|, i requires 0 <= i < |catalog| => catalog[i].uniqueID)
  }

  /** The position of the first occurrence of `key` in `keys`, or None when there is none. */
  function FirstIndex(keys: seq<string>, key: string): (r: Option<nat>)
    ensures r.Some? ==> r.value < |keys| && keys[r.value] == key
    ensures r.Some? ==> forall j :: 0 <= j < r.value ==> keys[j] != key
    ensures r.None? <==> key !in keys
    decreases |keys|
  {
    if keys == [] then None
    else if keys[0] == key then Some(0)
    else
      match FirstIndex(keys[1..], key)
      case Some(i) => Some(i + 1)
      case None => None
  }

  /** The entry at the first position of `key`, or None. */
  function FirstEntry(catalog: seq<GalleryEntry>, keys: seq<string>, key: string): (r: Option<GalleryEntry>)
    requires |keys| == |catalog|
    ensures r.None? <==> key !in keys
    ensures forall i :: 0 <= i < |keys| && keys[i] == key && (forall j :: 0 <= j < i ==> keys[j] != key) ==>
      r == Some(catalog[i])
  {
    match FirstIndex(keys, key)
    case Some(i) => Some(catalog[i])
    case None => None
  }

  /** `GET /model/gallery`: each entry of the freshly loaded catalog is marked in place with
      whether its repo is among the local store's model ids. */
  method ModelGalleryListAll(catalog: seq<GalleryEntry>, localModels: seq<LocalModel>)
    returns (gallery: seq<GalleryEntry>)
    ensures |gallery| == |catalog|
    ensures forall i :: 0 <= i < |gallery| ==>
      gallery[i].downloaded == Some(exists k :: 0 <= k < |localModels| && localModels[k].modelId == catalog[i].repo)
    ensures forall i :: 0 <= i < |gallery| ==> gallery[i].(downloaded := catalog[i].downloaded) == catalog[i]
  {
    var a := new GalleryEntry[|catalog|](i requires 0 <= i < |catalog| => catalog[i]);
    var localModelNames := LocalIds(localModels);
    for i := 0 to a.Length
      invariant forall k :: 0 <= k < i ==> a[k] == catalog[k].(downloaded := Some(catalog[k].repo in localModelNames))
      invariant forall k :: i <= k < a.Length ==> a[k] == catalog[k]
    {
      a[i] := a[i].(downloaded := Some(a[i].repo in localModelNames));
    }
    gallery := a[..];
  }

  /** `GET /model/gallery/{model_id}`: the first entry whose repo equals the id with every
      `"~~~"` turned into '/', or None. */
  method ModelGallery(catalog: seq<GalleryEntry>, modelId: string) returns (result: Option<GalleryEntry>)
    ensures result == FirstEntry(catalog, Repos(catalog), Unescape(modelId))
  {
    var id := Unescape(modelId);
    result := None;
    var i := 0;
    while i < |catalog|
      invariant 0 <= i <= |catalog|
      invariant result == None
      invariant forall j :: 0 <= j < i ==> catalog[j].repo != id
    {
      if catalog[i].repo == id {
        result := Some(catalog[i]);
        break;
      }
      i := i + 1;
    }
  }

  /** The `for ... else` search of `download_model_from_gallery`: the first entry whose
      uniqueID equals `galleryId`, or None; it is also the value the loop variable holds
      when the loop breaks. */
  method FindByUniqueId(catalog: seq<GalleryEntry>, galleryId: string) returns (entry: Option<GalleryEntry>)
    ensures entry == FirstEntry(catalog, UniqueIds(catalog), galleryId)
  {
    entry := None;
    var i := 0;
    while i < |catalog|
      invariant 0 <= i <= |catalog|
      invariant entry == None
      invariant forall j :: 0 <= j < i ==> catalog[j].uniqueID != galleryId
    {
      if catalog[i].uniqueID == galleryId {
        entry := Some(catalog[i]);
        break;
      }
      i := i + 1;
    }
  }

  /** An id written with the callers' escape finds the entry of the slash-containing repo. */
  lemma EscapedRepoFindsEntry(catalog: seq<GalleryEntry>, repo: string)
    requires '~' !in repo
    ensures FirstEntry(catalog, Repos(catalog), Unescape(Escape(repo))) == FirstEntry(catalog, Repos(catalog), repo)
  {
    UnescapeEscape(repo);
  }
}
