/**
 * The asset table of `ResourceManager`: a list of `SceneAsset` records that only grows.
 *
 * The `shared_ptr<void>` payload is an opaque handle here; the singleton plumbing and the
 * render-command and scene fields around the table are not part of this model.
 */
module ResourceManager {
  import opened Wrappers

  datatype AssetType = Undefined | Transform | Quad | Shader | Texture | SubTexture | Material | Geometry

  /** An opaque stand-in for the type-erased handle an asset record holds. */
  type Handle = nat

  datatype SceneAsset = SceneAsset(id: string, kind: AssetType, asset: Handle)

  /** The position of the first record with this id, scanning in insertion order. */
  function FirstWithId(assets: seq<SceneAsset>, id: string): Option<nat>
  {
    FirstWhere(assets, (a: SceneAsset) => a.id, id)
  }

  /** What `getAsset` returns: the payload of the first record whose id matches, whatever its type. */
  function Lookup(assets: seq<SceneAsset>, id: string): (r: Option<Handle>)
    ensures r.Some? <==> exists i :: 0 <= i < |assets| && assets[i].id == id
    ensures r.Some? ==> exists i :: 0 <= i < |assets| && assets[i].id == id && assets[i].asset == r.value &&
                                   forall j :: 0 <= j < i ==> assets[j].id != id
  {
    match FirstWithId(assets, id)
    case None => None
    case Some(i) => Some(assets[i].asset)
  }

  /** The records of one type, in insertion order. */
  function OfType(assets: seq<SceneAsset>, kind: AssetType): (r: seq<SceneAsset>)
    ensures |r| <= |assets|
    ensures forall a :: a in r <==> a in assets && a.kind == kind
  {
    if assets == [] then []
    else
      var rest := OfType(assets[..|assets| - 1], kind);
      var last := assets[|assets| - 1];
      assert forall a :: a in assets <==> a in assets[..|assets| - 1] || a == last;
      if last.kind == kind then rest + [last] else rest
  }

  /** Appending a record never changes what an id already present looks up to: later duplicates are shadowed. */
  lemma {:induction false} AppendShadowed(assets: seq<SceneAsset>, a: SceneAsset, id: string)
    requires Lookup(assets, id).Some?
    ensures Lookup(assets + [a], id) == Lookup(assets, id)
  {
    var i := FirstWithId(assets, id).value;
    var j := FirstWithId(assets + [a], id);
    assert (assets + [a])[i].id == id;
    assert j.Some? && j.value <= i;
    assert forall k :: 0 <= k < |assets| ==> (assets + [a])[k] == assets[k];
    assert j.value == i;
  }

  /** An asset added under a fresh id is what that id looks up to afterwards. */
  lemma {:induction false} AppendFresh(assets: seq<SceneAsset>, a: SceneAsset)
    requires Lookup(assets, a.id).None?
    ensures Lookup(assets + [a], a.id) == Some(a.asset)
  {
    var all := assets + [a];
    assert all[|assets|].id == a.id;
    var j := FirstWithId(all, a.id).value;
    assert forall k :: 0 <= k < |assets| ==> all[k] == assets[k];
    assert j == |assets|;
  }

  /** Looking an id up in a longer list: appending a record with another id changes nothing. */
  lemma {:induction false} AppendOtherId(assets: seq<SceneAsset>, a: SceneAsset, id: string)
    requires a.id != id
    ensures Lookup(assets + [a], id) == Lookup(assets, id)
  {
    var all := assets + [a];
    assert forall k :: 0 <= k < |assets| ==> all[k] == assets[k];
    if Lookup(assets, id).Some? {
      AppendShadowed(assets, a, id);
    } else {
      assert forall k :: 0 <= k < |all| ==> all[k].id != id by {
        assert forall k :: 0 <= k < |assets| ==> assets[k].id != id;
      }
    }
  }

  /** Filtering after an append: the new record joins the end of its own type's list only. */
  lemma {:induction false} OfTypeAppend(assets: seq<SceneAsset>, a: SceneAsset, kind: AssetType)
    ensures OfType(assets + [a], kind) == OfType(assets, kind) + (if a.kind == kind then [a] else [])
  {
    assert (assets + [a])[..|assets|] == assets;
  }

  /** One more record of the prefix: `OfTypeAppend` on `assets[..i + 1]`. */
  lemma {:induction false} OfTypePrefix(assets: seq<SceneAsset>, i: nat, kind: AssetType)
    requires i < |assets|
    ensures OfType(assets[..i + 1], kind) == OfType(assets[..i], kind) + (if assets[i].kind == kind then [assets[i]] else [])
  {
    assert assets[..i + 1] == assets[..i] + [assets[i]];
    OfTypeAppend(assets[..i], assets[i], kind);
  }

  /** The `loadedAssets` list and the operations over it. */
  class AssetTable {
    var loadedAssets: seq<SceneAsset>

    constructor ()
      ensures loadedAssets == []
    {
      loadedAssets := [];
    }

    /** `addAsset`: append the record, duplicates included, and hand the same payload back. */
    method AddAsset(id: string, kind: AssetType, asset: Handle) returns (r: Handle)
      modifies this
      ensures loadedAssets == old(loadedAssets) + [SceneAsset(id, kind, asset)]
      ensures r == asset
    {
      loadedAssets := loadedAssets + [SceneAsset(id, kind, asset)];
      r := asset;
    }

    /** `getAsset`: scan in insertion order and stop at the first matching id; `None` is the null reference. */
    method GetAsset(id: string) returns (r: Option<Handle>)
      ensures r == Lookup(loadedAssets, id)
    {
      var i := 0;
      while i < |loadedAssets|
        invariant 0 <= i <= |loadedAssets|
        invariant forall k :: 0 <= k < i ==> loadedAssets[k].id != id
      {
        if loadedAssets[i].id == id {
          return Some(loadedAssets[i].asset);
        }
        i := i + 1;
      }
      return None;
    }

    /** `getAllOf`: copy the records of one type, in order, into a fresh list. */
    method GetAllOf(kind: AssetType) returns (r: seq<SceneAsset>)
      ensures r == OfType(loadedAssets, kind)
    {
      r := [];
      for i := 0 to |loadedAssets|
        invariant r == OfType(loadedAssets[..i], kind)
      {
        OfTypePrefix(loadedAssets, i, kind);
        if loadedAssets[i].kind == kind {
          r := r + [loadedAssets[i]];
        }
      }
      assert loadedAssets[..|loadedAssets|] == loadedAssets;
    }

    /** `getAll`: the whole list, in insertion order. */
    function GetAll(): (r: seq<SceneAsset>)
      reads this
      ensures |r| == |loadedAssets| && forall i :: 0 <= i < |r| ==> r[i] == loadedAssets[i]
    {
      loadedAssets
    }
  }
}
